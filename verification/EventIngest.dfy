/**
  The paged ingest that event_poller.rs, reward_poller.rs and delegator_poller.rs share. A run of a
  poller is the sequence of statements it sets out to execute; a crash after any one of them leaves
  a prefix. The explorer serves an append-only log in pages whose lengths, and whether they carry a
  next cursor, it chooses freely.
*/
module EventIngest {
  import opened Wrappers
  import opened Tickets

  const PAGE_LIMIT := 100

  /** Which events a poller asks for, and so which table it fills. */
  datatype Stream = Tickets | Rewards | Delegations

  datatype Listed = Listed(stream: Stream, entry: Entry)

  /** An event as a poller takes it from a page: a ticket with its preferred valuation, anything else with its first. */
  function Seen(stream: Stream, l: Listing): Listed {
    Listed(stream, if stream.Tickets? then Bound(l) else FirstBound(l))
  }

  function LogOf(stream: Stream, listings: seq<Listing>): seq<Listed> {
    seq(|listings|, i requires 0 <= i < |listings| => Seen(stream, listings[i]))
  }

  /** A reward needs the orchestrator it is addressed to, a delegation both addresses; a ticket is always stored. */
  predicate Storable(e: Listed) {
    && (!e.stream.Tickets? ==> e.entry.toAddress.Some?)
    && (e.stream.Delegations? ==> e.entry.fromAddress.Some?)
  }

  /** Only a ticket offers its valuation to a row that is already there. */
  predicate Repairs(e: Listed) {
    e.stream.Tickets? && (e.entry.amountUsd.Some? || e.entry.nativeUsdPrice.Some?)
  }

  /** What one listed event does to its table. */
  function Kept(t: Table, e: Listed): Table {
    if !Storable(e) then t else if e.stream.Tickets? then InsertEvent(t, e.entry) else InsertOrIgnore(t, e.entry)
  }

  /** A cursor names a position in the log. `pageLen` and `hasNext` are the explorer's choices there. */
  datatype Explorer = Explorer(log: seq<Listed>, pageLen: nat -> nat, hasNext: nat -> bool)

  function Min(a: int, b: int): int {
    if a < b then a else b
  }

  /** Where the page at `pos` ends; past the end of the log every page is empty. */
  function PageEnd(ex: Explorer, pos: nat): (r: nat)
    ensures pos <= r <= pos + PAGE_LIMIT && (r == pos || r <= |ex.log|)
  {
    if pos >= |ex.log| then pos else Min(pos + Min(ex.pageLen(pos), PAGE_LIMIT), |ex.log|)
  }

  /** A page holds what the explorer lists of the rest of the log, a hundred entries at most. */
  lemma PageExactly(ex: Explorer, pos: nat)
    requires pos < |ex.log|
    ensures var n, rest := PageEnd(ex, pos) - pos, |ex.log| - pos;
      && n <= rest && n <= 100 && n <= ex.pageLen(pos)
      && (n == rest || n == 100 || n == ex.pageLen(pos))
  {
  }

  /** `Skip` stands for an event that is not stored: no statement, but a moment at which the process may die. */
  datatype Stmt =
    | Skip
    | InsertRow(entry: Entry)
    | RepairRow(id: Id, usd: Option<real>, price: Option<real>)
    | SetCursor(pos: nat)

  datatype Store = Store(table: Table, cursor: Option<nat>)

  function Position(st: Store): nat {
    if st.cursor.Some? then st.cursor.value else 0
  }

  function Exec(st: Store, s: Stmt): Store {
    match s
    case Skip => st
    case InsertRow(e) => st.(table := InsertOrIgnore(st.table, e))
    case RepairRow(id, usd, price) => st.(table := Repair(st.table, id, usd, price))
    case SetCursor(pos) => st.(cursor := Some(pos))
  }

  function ExecAll(st: Store, ss: seq<Stmt>): Store {
    if ss == [] then st else Exec(ExecAll(st, ss[..|ss| - 1]), ss[|ss| - 1])
  }

  /** The statements one listed event gives rise to. */
  function InsertStmts(e: Listed): seq<Stmt> {
    [if Storable(e) then InsertRow(e.entry) else Skip]
    + if Repairs(e) then [RepairRow(e.entry.id, e.entry.amountUsd, e.entry.nativeUsdPrice)] else []
  }

  /** The statements for the entries at positions `from` up to `to`. */
  function PageStmts(log: seq<Listed>, from: nat, to: nat): seq<Stmt>
    requires from <= to <= |log|
    decreases (to)
  {
    if from == to then [] else PageStmts(log, from, to - 1) + InsertStmts(log[to - 1])
  }

  /** What a run from position `pos` sets out to do. */
  function Plan(ex: Explorer, pos: nat): seq<Stmt>
    decreases |ex.log| - pos
  {
    var end := PageEnd(ex, pos);
    if end == pos then []
    else
      PageStmts(ex.log, pos, end)
      + if !ex.hasNext(pos) then []
        else [SetCursor(end)] + (if end - pos < PAGE_LIMIT then [] else Plan(ex, end))
  }

  function Performed(plan: seq<Stmt>, credit: nat): seq<Stmt> {
    if |plan| <= credit then plan else plan[..credit]
  }

  // ---- the table a prefix of the log stands for --------------------------------------------

  /** `t` with the first `k` entries of the log inserted. */
  function Ingested(t: Table, log: seq<Listed>, k: nat): Table
    requires k <= |log|
    decreases k
  {
    if k == 0 then t else Kept(Ingested(t, log, k - 1), log[k - 1])
  }

  /** Everything `e` has to say is in the table already. */
  predicate Absorbed(t: Table, e: Listed) {
    Storable(e) ==>
      && e.entry.id in t
      && (e.stream.Tickets? ==> t[e.entry.id].sent || Valued(t[e.entry.id], e.entry))
  }

  predicate Valued(row: Row, e: Entry) {
    && (Positive(e.amountUsd) ==> Positive(row.amountUsd))
    && (Positive(e.nativeUsdPrice) ==> Positive(row.nativeUsdPrice))
  }

  lemma AbsorbedIsNoOp(t: Table, e: Listed)
    requires Absorbed(t, e)
    ensures Kept(t, e) == t
    ensures Storable(e) ==> InsertOrIgnore(t, e.entry) == t
    ensures Repairs(e) ==> Repair(t, e.entry.id, e.entry.amountUsd, e.entry.nativeUsdPrice) == t
  {
  }

  lemma KeptIsAbsorbed(t: Table, e: Listed)
    ensures Absorbed(Kept(t, e), e)
  {
  }

  lemma AbsorbedStays(t: Table, e: Listed, f: Listed)
    requires Absorbed(t, e)
    ensures Absorbed(Kept(t, f), e)
  {
  }

  lemma {:induction false} IngestedAbsorbs(t: Table, log: seq<Listed>, k: nat, i: nat)
    requires i < k <= |log|
    ensures Absorbed(Ingested(t, log, k), log[i])
    decreases k
  {
    if i < k - 1 {
      IngestedAbsorbs(t, log, k - 1, i);
      AbsorbedStays(Ingested(t, log, k - 1), log[i], log[k - 1]);
    } else {
      KeptIsAbsorbed(Ingested(t, log, k - 1), log[i]);
    }
  }

  /** Fetching an ingested page again is a no-op, whatever the log repeats. */
  lemma {:induction false} ReingestIsNoOp(t: Table, log: seq<Listed>, k: nat, i: nat)
    requires i < k <= |log|
    ensures Kept(Ingested(t, log, k), log[i]) == Ingested(t, log, k)
  {
    IngestedAbsorbs(t, log, k, i);
    AbsorbedIsNoOp(Ingested(t, log, k), log[i]);
  }

  // ---- prefixes of a run ---------------------------------------------------------------------

  lemma {:induction false} ExecAllSplits(st: Store, a: seq<Stmt>, b: seq<Stmt>)
    ensures ExecAll(st, a + b) == ExecAll(ExecAll(st, a), b)
  {
    if b == [] {
      assert a + b == a;
    } else {
      assert (a + b)[..|a + b| - 1] == a + b[..|b| - 1];
      ExecAllSplits(st, a, b[..|b| - 1]);
    }
  }

  /** A store that has exactly the first `k` entries of `log` on top of `t`, with its cursor no further. */
  predicate Holds(t: Table, log: seq<Listed>, st: Store, k: nat) {
    Position(st) <= k <= |log| && st.table == Ingested(t, log, k)
  }

  /** Any start of one insertion either leaves the prefix the table stands for or extends it by the entry. */
  lemma InsertPrefix(t: Table, log: seq<Listed>, st: Store, k: nat, i: nat, n: nat) returns (k': nat)
    requires Holds(t, log, st, k) && i <= k && i < |log| && n <= |InsertStmts(log[i])|
    ensures Holds(t, log, ExecAll(st, InsertStmts(log[i])[..n]), k') && k <= k' <= (if i == k then k + 1 else k)
    ensures n == |InsertStmts(log[i])| ==> k' == if i == k then k + 1 else k
    ensures ExecAll(st, InsertStmts(log[i])[..n]).cursor == st.cursor
  {
    var e, ss := log[i], InsertStmts(log[i])[..n];
    InsertRuns(st, e, n);
    if i < k {
      IngestedAbsorbs(t, log, k, i);
      AbsorbedIsNoOp(st.table, e);
      k' := k;
    } else {
      k' := if ExecAll(st, ss).table == st.table && n < |InsertStmts(e)| then k else k + 1;
    }
  }

  lemma InsertRuns(st: Store, e: Listed, n: nat)
    requires n <= |InsertStmts(e)|
    ensures var st' := ExecAll(st, InsertStmts(e)[..n]);
      && st'.cursor == st.cursor
      && st'.table == (if n == 0 then st.table
                       else if n == |InsertStmts(e)| then Kept(st.table, e)
                       else InsertOrIgnore(st.table, e.entry))
    ensures 0 < n < |InsertStmts(e)| && e.entry.id !in st.table ==>
      InsertOrIgnore(st.table, e.entry) == Kept(st.table, e)
  {
    var ss := InsertStmts(e);
    if n == 0 {
      assert ss[..n] == [];
    } else if n == 1 {
      assert ss[..n] == [ss[0]];
      ExecTwo(st, ss[0], ss[0]);
    } else {
      assert ss[..n] == [ss[0], ss[1]];
      ExecTwo(st, ss[0], ss[1]);
    }
  }

  lemma ExecTwo(st: Store, r: Stmt, s: Stmt)
    ensures ExecAll(st, [r]) == Exec(st, r) && ExecAll(st, [r, s]) == Exec(Exec(st, r), s)
  {
    assert [r][..0] == [] && [r, s][..1] == [r];
  }

  lemma ExecSnoc(st: Store, ss: seq<Stmt>, s: Stmt)
    ensures ExecAll(st, ss + [s]) == Exec(ExecAll(st, ss), s)
  {
    assert (ss + [s])[..|ss|] == ss;
  }

  /** A start of one list followed by another. */
  lemma PrefixOfTwo(a: seq<Stmt>, b: seq<Stmt>, n: nat)
    requires n <= |a| + |b|
    ensures (a + b)[..n] == if n < |a| then a[..n] else a + b[..n - |a|]
    ensures a[..|a|] == a
  {
  }

  lemma ExecPrefixOfTwo(st: Store, a: seq<Stmt>, b: seq<Stmt>, n: nat)
    requires n <= |a| + |b|
    ensures n < |a| ==> ExecAll(st, (a + b)[..n]) == ExecAll(st, a[..n])
    ensures n >= |a| ==> ExecAll(st, (a + b)[..n]) == ExecAll(ExecAll(st, a), b[..n - |a|])
    ensures ExecAll(st, a[..|a|]) == ExecAll(st, a)
  {
    PrefixOfTwo(a, b, n);
    if n >= |a| {
      ExecAllSplits(st, a, b[..n - |a|]);
    }
  }

  /** The statements of the event at `i`, or a start of them, after those of `head`. */
  lemma PageLast(t: Table, log: seq<Listed>, st: Store, head: seq<Stmt>, k: nat, i: nat, n: nat) returns (k': nat)
    requires Holds(t, log, ExecAll(st, head), k) && i <= k && i < |log| && n <= |InsertStmts(log[i])|
    ensures Holds(t, log, ExecAll(st, (head + InsertStmts(log[i]))[..|head| + n]), k') && k <= k' <= Max(k, i + 1)
    ensures n == |InsertStmts(log[i])| ==> k' >= i + 1
  {
    k' := InsertPrefix(t, log, ExecAll(st, head), k, i, n);
    ExecPrefixOfTwo(st, head, InsertStmts(log[i]), |head| + n);
  }

  lemma WholePrefix(ss: seq<Stmt>)
    ensures ss[..|ss|] == ss
  {
  }

  /** Any start of a page, wherever in the ingested prefix the page begins. */
  lemma {:induction false} PagePrefix(t: Table, log: seq<Listed>, st: Store, k: nat, from: nat, to: nat, n: nat)
    returns (k': nat)
    requires Holds(t, log, st, k) && from <= to <= |log| && from <= k && n <= |PageStmts(log, from, to)|
    ensures Holds(t, log, ExecAll(st, PageStmts(log, from, to)[..n]), k') && k <= k'
    ensures n == |PageStmts(log, from, to)| ==> k' >= to
    ensures k' <= Max(k, to)
    decreases (to)
  {
    if from == to {
      assert PageStmts(log, from, to)[..n] == [];
      k' := k;
    } else {
      var head := PageStmts(log, from, to - 1);
      if n < |head| {
        k' := PagePrefix(t, log, st, k, from, to - 1, n);
        ExecPrefixOfTwo(st, head, InsertStmts(log[to - 1]), n);
      } else {
        var mid := PagePrefix(t, log, st, k, from, to - 1, |head|);
        WholePrefix(head);
        k' := PageLast(t, log, st, head, mid, to - 1, n - |head|);
      }
    }
  }

  function Max(a: int, b: int): int {
    if a < b then b else a
  }

  function Rest(ex: Explorer, pos: nat): seq<Stmt> {
    if PageEnd(ex, pos) - pos < PAGE_LIMIT then [] else Plan(ex, PageEnd(ex, pos))
  }

  /** A run that goes beyond its first page: the page, the cursor write, and the run from there. */
  lemma PlanShape(ex: Explorer, pos: nat)
    requires PageEnd(ex, pos) > pos
    ensures var page := PageStmts(ex.log, pos, PageEnd(ex, pos));
      Plan(ex, pos) == if ex.hasNext(pos) then (page + [SetCursor(PageEnd(ex, pos))]) + Rest(ex, pos) else page
  {
  }

  /** A start of a run is a start of its first page, or that page, its cursor write and a start of the rest. */
  lemma PlanStart(ex: Explorer, st: Store, pos: nat, n: nat)
    requires PageEnd(ex, pos) > pos && n <= |Plan(ex, pos)|
    ensures var page := PageStmts(ex.log, pos, PageEnd(ex, pos));
      if n <= |page| then ExecAll(st, Plan(ex, pos)[..n]) == ExecAll(st, page[..n])
      else
        && n - |page| - 1 <= |Rest(ex, pos)|
        && ExecAll(st, Plan(ex, pos)[..n])
           == ExecAll(Exec(ExecAll(st, page[..|page|]), SetCursor(PageEnd(ex, pos))), Rest(ex, pos)[..n - |page| - 1])
  {
    var page := PageStmts(ex.log, pos, PageEnd(ex, pos));
    PlanShape(ex, pos);
    assert page[..|page|] == page;
    if n <= |page| {
      assert Plan(ex, pos)[..n] == page[..n];
    } else {
      ExecSnoc(st, page, SetCursor(PageEnd(ex, pos)));
      ExecPrefixOfTwo(st, page + [SetCursor(PageEnd(ex, pos))], Rest(ex, pos), n);
    }
  }

  /** Any start of a whole run, begun at the stored cursor. */
  lemma {:induction false} RunPrefix(t: Table, ex: Explorer, st: Store, k: nat, n: nat) returns (k': nat)
    requires Holds(t, ex.log, st, k) && n <= |Plan(ex, Position(st))|
    ensures Holds(t, ex.log, ExecAll(st, Plan(ex, Position(st))[..n]), k') && k <= k'
    decreases |ex.log| - Position(st), 1
  {
    var pos := Position(st);
    var end := PageEnd(ex, pos);
    if end == pos {
      assert Plan(ex, pos)[..n] == [];
      k' := k;
    } else {
      var page := PageStmts(ex.log, pos, end);
      PlanStart(ex, st, pos, n);
      k' := PagePrefix(t, ex.log, st, k, pos, end, if n <= |page| then n else |page|);
      if n > |page| {
        var after := Exec(ExecAll(st, page[..|page|]), SetCursor(end));
        k' := RestPrefix(t, ex, after, pos, k', n - |page| - 1);
      }
    }
  }

  /** Any start of what follows the first page of a run. */
  lemma {:induction false} RestPrefix(t: Table, ex: Explorer, st: Store, pos: nat, k: nat, m: nat) returns (k': nat)
    requires PageEnd(ex, pos) > pos && Position(st) == PageEnd(ex, pos)
    requires Holds(t, ex.log, st, k) && m <= |Rest(ex, pos)|
    ensures Holds(t, ex.log, ExecAll(st, Rest(ex, pos)[..m]), k') && k <= k'
    decreases |ex.log| - pos, 0
  {
    if Rest(ex, pos) == [] {
      assert Rest(ex, pos)[..m] == [];
      k' := k;
    } else {
      k' := RunPrefix(t, ex, st, k, m);
    }
  }

  // ---- any number of crashes ---------------------------------------------------------------------

  /** One run of the poller: what the explorer serves, and after how many statements it crashes, if it does. */
  datatype Attempt = Attempt(explorer: Explorer, credit: nat)

  function Attempted(st: Store, a: Attempt): Store {
    ExecAll(st, Performed(Plan(a.explorer, Position(st)), a.credit))
  }

  function After(st: Store, runs: seq<Attempt>): Store {
    if runs == [] then st else Attempted(After(st, runs[..|runs| - 1]), runs[|runs| - 1])
  }

  /** The log only grows from one attempt to the next. */
  ghost predicate AppendOnly(runs: seq<Attempt>) {
    forall i, j | 0 <= i <= j < |runs| :: runs[i].explorer.log <= runs[j].explorer.log
  }

  lemma {:induction false} IngestedInLongerLog(t: Table, log: seq<Listed>, longer: seq<Listed>, k: nat)
    requires k <= |log| && log <= longer
    ensures Ingested(t, longer, k) == Ingested(t, log, k)
    decreases k
  {
    if k > 0 {
      IngestedInLongerLog(t, log, longer, k - 1);
    }
  }

  /** After any number of attempts, each crashed anywhere or not at all, the table is a prefix of the log. */
  lemma {:induction false} AttemptsHold(st: Store, runs: seq<Attempt>) returns (k: nat)
    requires st.cursor.None? && runs != [] && AppendOnly(runs)
    ensures Holds(st.table, runs[|runs| - 1].explorer.log, After(st, runs), k)
  {
    var init, last := runs[..|runs| - 1], runs[|runs| - 1];
    var log := last.explorer.log;
    if init == [] {
      k := 0;
    } else {
      assert forall i | 0 <= i < |init| :: init[i] == runs[i];
      k := AttemptsHold(st, init);
      IngestedInLongerLog(st.table, init[|init| - 1].explorer.log, log, k);
    }
    var before := After(st, init);
    var plan := Plan(last.explorer, Position(before));
    var n := Min(last.credit, |plan|);
    assert Performed(plan, last.credit) == plan[..n];
    k := RunPrefix(st.table, last.explorer, before, k, n);
  }

  /** `id` is the id of an event worth storing among the first `k` of the log. */
  predicate ListedBefore(log: seq<Listed>, k: nat, id: Id)
    requires k <= |log|
  {
    exists i :: 0 <= i < k && log[i].entry.id == id && Storable(log[i])
  }

  lemma {:induction false} IngestedIds(t: Table, log: seq<Listed>, k: nat, id: Id)
    requires k <= |log|
    ensures id in Ingested(t, log, k) <==> id in t || ListedBefore(log, k, id)
    decreases k
  {
    if k > 0 {
      IngestedIds(t, log, k - 1, id);
      if id == log[k - 1].entry.id && Storable(log[k - 1]) {
        assert ListedBefore(log, k, id);
      }
    }
  }

  /**
    Crash safety: however many attempts crash after however few statements, every storable event before
    the stored cursor is in the table, and nothing is in the table that was not there or in the log.
  */
  lemma IngestIsCrashSafe(st: Store, runs: seq<Attempt>)
    requires st.cursor.None? && runs != [] && AppendOnly(runs)
    ensures var log, end := runs[|runs| - 1].explorer.log, After(st, runs);
      && Position(end) <= |log|
      && (forall i | 0 <= i < Position(end) :: Absorbed(end.table, log[i]))
      && (forall id | id in end.table :: id in st.table || ListedBefore(log, |log|, id))
  {
    var log, end := runs[|runs| - 1].explorer.log, After(st, runs);
    var k := AttemptsHold(st, runs);
    forall i | 0 <= i < Position(end) ensures Absorbed(end.table, log[i]) {
      IngestedAbsorbs(st.table, log, k, i);
    }
    forall id | id in end.table ensures id in st.table || ListedBefore(log, |log|, id) {
      IngestedIds(st.table, log, k, id);
    }
  }

  /** Full pages, and a next cursor on every page but the last. */
  ghost predicate Obliging(ex: Explorer) {
    forall pos: nat :: ex.pageLen(pos) >= PAGE_LIMIT && (pos + PAGE_LIMIT < |ex.log| ==> ex.hasNext(pos))
  }

  /** A run that does not crash brings in the rest of the log. */
  lemma {:induction false} CompleteRun(t: Table, ex: Explorer, st: Store, k: nat)
    requires Holds(t, ex.log, st, k) && Obliging(ex)
    ensures ExecAll(st, Plan(ex, Position(st))).table == Ingested(t, ex.log, |ex.log|)
    decreases |ex.log| - Position(st)
  {
    var pos := Position(st);
    var end, plan := PageEnd(ex, pos), Plan(ex, pos);
    if end == pos {
      assert k == |ex.log|;
    } else {
      var page := PageStmts(ex.log, pos, end);
      var head := page + [SetCursor(end)];
      PlanShape(ex, pos);
      assert page[..|page|] == page;
      var mid := PagePrefix(t, ex.log, st, k, pos, end, |page|);
      ExecSnoc(st, page, SetCursor(end));
      if end == |ex.log| {
        assert mid == |ex.log|;
        assert Rest(ex, pos) == [] && head + [] == head;
      } else {
        assert Rest(ex, pos) == Plan(ex, end);
        ExecAllSplits(st, head, Plan(ex, end));
        var st1 := ExecAll(st, head);
        assert Position(st1) == end && Holds(t, ex.log, st1, mid);
        CompleteRun(t, ex, st1, mid);
      }
    }
  }

  /** Pages that move on: none is empty before the end of the log, and each has a next cursor unless it reaches it. */
  ghost predicate MovesOn(ex: Explorer) {
    forall pos: nat | pos < |ex.log| :: ex.pageLen(pos) >= 1 && (PageEnd(ex, pos) < |ex.log| ==> ex.hasNext(pos))
  }

  /** A run that does not crash, however short its pages, reaches the end of the log or moves the cursor. */
  lemma {:induction false} CompletedRunAdvances(t: Table, ex: Explorer, st: Store, k: nat) returns (k': nat)
    requires Holds(t, ex.log, st, k) && MovesOn(ex)
    ensures var st' := ExecAll(st, Plan(ex, Position(st)));
      Holds(t, ex.log, st', k') && k <= k' && (k' == |ex.log| || Position(st') > Position(st))
    decreases |ex.log| - Position(st)
  {
    var pos := Position(st);
    var end := PageEnd(ex, pos);
    if end == pos {
      k' := k;
    } else {
      var page := PageStmts(ex.log, pos, end);
      PlanShape(ex, pos);
      assert page[..|page|] == page;
      var mid := PagePrefix(t, ex.log, st, k, pos, end, |page|);
      k' := mid;
      if ex.hasNext(pos) {
        var head := page + [SetCursor(end)];
        ExecSnoc(st, page, SetCursor(end));
        ExecAllSplits(st, head, Rest(ex, pos));
        var st1 := ExecAll(st, head);
        if Rest(ex, pos) != [] {
          k' := CompletedRunAdvances(t, ex, st1, mid);
        }
      }
    }
  }

  predicate Completes(st: Store, a: Attempt) {
    a.credit >= |Plan(a.explorer, Position(st))|
  }

  /** From the `m`-th on, each attempt sees all of `log` in pages that move on, and does not crash. */
  ghost predicate CompleteFrom(st: Store, runs: seq<Attempt>, log: seq<Listed>, m: nat) {
    forall i | m <= i < |runs| ::
      runs[i].explorer.log == log && MovesOn(runs[i].explorer) && Completes(After(st, runs[..i]), runs[i])
  }

  lemma CompleteBefore(st: Store, runs: seq<Attempt>, log: seq<Listed>, m: nat)
    requires runs != [] && CompleteFrom(st, runs, log, m)
    ensures CompleteFrom(st, runs[..|runs| - 1], log, m)
  {
    var init := runs[..|runs| - 1];
    forall i | m <= i < |init|
      ensures init[i].explorer.log == log && MovesOn(init[i].explorer) && Completes(After(st, init[..i]), init[i])
    {
      assert init[..i] == runs[..i] && init[i] == runs[i];
    }
  }

  lemma CompletedAttempt(t: Table, log: seq<Listed>, before: Store, a: Attempt, k: nat) returns (k': nat)
    requires a.explorer.log == log && MovesOn(a.explorer) && Completes(before, a) && Holds(t, log, before, k)
    ensures Holds(t, log, Attempted(before, a), k') && k <= k'
      && (k' == |log| || Position(Attempted(before, a)) > Position(before))
  {
    k' := CompletedRunAdvances(t, a.explorer, before, k);
  }

  lemma {:induction false} CursorCatchesUp(st: Store, runs: seq<Attempt>, log: seq<Listed>, m: nat) returns (k: nat)
    requires st.cursor.None? && AppendOnly(runs) && m <= |runs| && CompleteFrom(st, runs, log, m)
    requires forall i | 0 <= i < |runs| :: runs[i].explorer.log <= log
    ensures Holds(st.table, log, After(st, runs), k) && (k == |log| || Position(After(st, runs)) >= |runs| - m)
    decreases |runs|
  {
    if runs == [] {
      k := 0;
    } else if |runs| == m {
      k := AttemptsHold(st, runs);
      IngestedInLongerLog(st.table, runs[|runs| - 1].explorer.log, log, k);
    } else {
      var init, last := runs[..|runs| - 1], runs[|runs| - 1];
      assert forall i | 0 <= i < |init| :: init[i] == runs[i];
      CompleteBefore(st, runs, log, m);
      k := CursorCatchesUp(st, init, log, m);
      k := CompletedAttempt(st.table, log, After(st, init), last, k);
    }
  }

  /**
    The poller has caught up with the log of its last attempt: that attempt completed in full pages, or as
    many attempts as the log is long completed over it in pages that move on.
  */
  ghost predicate CaughtUp(st: Store, runs: seq<Attempt>)
    requires runs != []
  {
    var last := runs[|runs| - 1];
    || (Obliging(last.explorer) && Completes(After(st, runs[..|runs| - 1]), last))
    || exists m ::
      0 <= m && |runs| - m >= |last.explorer.log| && m < |runs| && CompleteFrom(st, runs, last.explorer.log, m)
  }

  /**
    Crashes leave no trace: two pollers that see the log grow in different steps and crash in
    different places hold the same table once each has caught up with the same log.
  */
  lemma CrashesLeaveNoTrace(st: Store, runs: seq<Attempt>, others: seq<Attempt>)
    requires st.cursor.None? && runs != [] && others != [] && AppendOnly(runs) && AppendOnly(others)
    requires runs[|runs| - 1].explorer.log == others[|others| - 1].explorer.log
    requires CaughtUp(st, runs) && CaughtUp(st, others)
    ensures After(st, runs).table == After(st, others).table
      == Ingested(st.table, runs[|runs| - 1].explorer.log, |runs[|runs| - 1].explorer.log|)
  {
    CaughtUpHolds(st, runs);
    CaughtUpHolds(st, others);
  }

  lemma CaughtUpHolds(st: Store, runs: seq<Attempt>)
    requires st.cursor.None? && runs != [] && AppendOnly(runs) && CaughtUp(st, runs)
    ensures After(st, runs).table == Ingested(st.table, runs[|runs| - 1].explorer.log, |runs[|runs| - 1].explorer.log|)
  {
    var log := runs[|runs| - 1].explorer.log;
    if Obliging(runs[|runs| - 1].explorer) && Completes(After(st, runs[..|runs| - 1]), runs[|runs| - 1]) {
      CompletedRun(st, runs);
    } else {
      var m: nat :| |runs| - m >= |log| && m < |runs| && CompleteFrom(st, runs, log, m);
      var k := CursorCatchesUp(st, runs, log, m);
    }
  }

  lemma CompletedRun(st: Store, runs: seq<Attempt>)
    requires st.cursor.None? && runs != [] && AppendOnly(runs)
    requires Obliging(runs[|runs| - 1].explorer) && Completes(After(st, runs[..|runs| - 1]), runs[|runs| - 1])
    ensures After(st, runs).table == Ingested(st.table, runs[|runs| - 1].explorer.log, |runs[|runs| - 1].explorer.log|)
  {
    var init, last := runs[..|runs| - 1], runs[|runs| - 1];
    var k := 0;
    if init != [] {
      assert forall i | 0 <= i < |init| :: init[i] == runs[i];
      k := AttemptsHold(st, init);
      IngestedInLongerLog(st.table, init[|init| - 1].explorer.log, last.explorer.log, k);
    }
    CompleteRun(st.table, last.explorer, After(st, init), k);
  }

  /** A ticket stored for the first time holds the valuation that ranks highest, the last of those if several do. */
  lemma NewTicketHoldsPreferred(t: Table, l: Listing) returns (i: nat)
    requires l.id !in t && l.valuations.Some? && l.valuations.value != []
    ensures var vs, row := l.valuations.value, Kept(t, Seen(Tickets, l))[l.id];
      && i < |vs| && row.amountUsd == vs[i].amountUsd && row.nativeUsdPrice == vs[i].nativeUsdPrice
      && (forall j | 0 <= j < |vs| :: Preference(vs[j]) <= Preference(vs[i]))
      && (forall j | i < j < |vs| :: Preference(vs[j]) < Preference(vs[i]))
  {
    i := PreferredIsLastMaximum(l.valuations.value);
  }

  // ---- what a row says -----------------------------------------------------------------------

  /** Each field of the row but the valuation is that of the event as the explorer lists it. */
  predicate SaysAsListed(row: Row, l: Listing) {
    && row.eventName == l.eventName && row.timestamp == l.timestamp && row.amountNative == l.amountNative
    && row.fromAddress == l.fromAddress && row.toAddress == l.toAddress
  }

  /** Of rewards those with a recipient are stored, of delegations those with both addresses, and every ticket. */
  lemma StorableExactly(stream: Stream, l: Listing)
    ensures Storable(Seen(stream, l)) <==>
      match stream
      case Tickets => true
      case Rewards => l.toAddress.Some?
      case Delegations => l.fromAddress.Some? && l.toAddress.Some?
  {
  }

  /** An event stored for the first time is stored as it was listed and as not sent; no other row changes. */
  lemma StoredAsListed(t: Table, stream: Stream, l: Listing)
    requires Storable(Seen(stream, l)) && l.id !in t
    ensures var t' := Kept(t, Seen(stream, l));
      && t'.Keys == t.Keys + {l.id} && SaysAsListed(t'[l.id], l) && !t'[l.id].sent
      && forall id | id in t :: t'[id] == t[id]
  {
  }

  /** A reward or a delegation holds the first valuation listed, if there is one. */
  lemma FirstValuationIsKept(t: Table, stream: Stream, l: Listing)
    requires !stream.Tickets? && Storable(Seen(stream, l)) && l.id !in t
    ensures var row := Kept(t, Seen(stream, l))[l.id];
      if l.valuations.Some? && l.valuations.value != []
      then
        && row.amountUsd == l.valuations.value[0].amountUsd
        && row.nativeUsdPrice == l.valuations.value[0].nativeUsdPrice
      else row.amountUsd.None? && row.nativeUsdPrice.None?
  {
  }

  /** The row says what one of the first `k` listings with its id does. */
  predicate SaysListing(row: Row, stream: Stream, listings: seq<Listing>, k: nat, id: Id)
    requires k <= |listings|
  {
    exists i | 0 <= i < k ::
      listings[i].id == id && Storable(Seen(stream, listings[i])) && SaysAsListed(row, listings[i])
  }

  /** Storing one more event leaves the rows that are there as they are, but for valuations. */
  lemma KeptLeavesRows(t: Table, stream: Stream, l: Listing, id: Id)
    requires id in t
    ensures var t' := Kept(t, Seen(stream, l));
      id in t' && t'[id] == t[id].(amountUsd := t'[id].amountUsd, nativeUsdPrice := t'[id].nativeUsdPrice)
  {
  }

  lemma {:induction false} IngestedSays(t: Table, stream: Stream, listings: seq<Listing>, k: nat, id: Id)
    requires k <= |listings| && id in Ingested(t, LogOf(stream, listings), k) && id !in t
    ensures var row := Ingested(t, LogOf(stream, listings), k)[id];
      !row.sent && SaysListing(row, stream, listings, k, id)
    decreases k
  {
    var before, l := Ingested(t, LogOf(stream, listings), k - 1), listings[k - 1];
    if id in before {
      IngestedSays(t, stream, listings, k - 1, id);
      KeptLeavesRows(before, stream, l, id);
      var i :| 0 <= i < k - 1 && listings[i].id == id && Storable(Seen(stream, listings[i]))
        && SaysAsListed(before[id], listings[i]);
      assert SaysAsListed(Kept(before, Seen(stream, l))[id], listings[i]);
    } else {
      StoredAsListed(before, stream, l);
      assert SaysAsListed(Kept(before, Seen(stream, l))[id], listings[k - 1]);
    }
  }

  /**
    However many attempts crash, every row that was not there before says what a listing with its id does
    and is not marked as sent.
  */
  lemma RowsSayWhatWasListed(st: Store, runs: seq<Attempt>, stream: Stream, listings: seq<Listing>, id: Id)
    requires st.cursor.None? && runs != [] && AppendOnly(runs)
    requires runs[|runs| - 1].explorer.log == LogOf(stream, listings)
    requires id in After(st, runs).table && id !in st.table
    ensures var row := After(st, runs).table[id];
      !row.sent && SaysListing(row, stream, listings, |listings|, id)
  {
    var k := AttemptsHold(st, runs);
    IngestedSays(st.table, stream, listings, k, id);
    var row := After(st, runs).table[id];
    var i :| 0 <= i < k && listings[i].id == id && Storable(Seen(stream, listings[i]))
      && SaysAsListed(row, listings[i]);
    assert SaysListing(row, stream, listings, |listings|, id);
  }
}
