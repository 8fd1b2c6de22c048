/** One run of the digest poster as the program makes it: a hash map of groups, a sort, and a loop of sends. */
module DigestPoster {
  import opened Sequences
  import opened Wrappers
  import opened Sorting
  import T = Tickets
  import opened DigestJobs
  import TicketPosting

  /** The groups of `events`: one for each address some event was sent to, in fetch order. */
  ghost predicate IsGrouping(events: seq<Stored>, byOrch: map<Address, seq<Stored>>) {
    && (forall a | a in byOrch :: byOrch[a] == Filter(events, SentTo(a)) && byOrch[a] != [])
    && forall a | a !in byOrch :: Filter(events, SentTo(a)) == []
  }

  lemma GroupOneMore(events: seq<Stored>, i: nat, byOrch: map<Address, seq<Stored>>)
    requires i < |events| && IsGrouping(events[..i], byOrch)
    ensures events[i].row.toAddress.None? ==> IsGrouping(events[..i + 1], byOrch)
    ensures events[i].row.toAddress.Some? ==>
      var addr := events[i].row.toAddress.value;
      IsGrouping(events[..i + 1], byOrch[addr := (if addr in byOrch then byOrch[addr] else []) + [events[i]]])
  {
    forall a ensures Filter(events[..i + 1], SentTo(a))
      == Filter(events[..i], SentTo(a)) + (if events[i].row.toAddress == Some(a) then [events[i]] else [])
    {
      FilterSnoc(events, i, SentTo(a));
    }
  }

  method GroupByOrch(events: seq<Stored>) returns (byOrch: map<Address, seq<Stored>>)
    ensures forall a :: a in byOrch <==> exists e :: e in events && e.row.toAddress == Some(a)
    ensures forall a | a in byOrch :: byOrch[a] == Filter(events, SentTo(a))
  {
    byOrch := map[];
    for i := 0 to |events|
      invariant IsGrouping(events[..i], byOrch)
    {
      GroupOneMore(events, i, byOrch);
      var ev := events[i];
      if ev.row.toAddress.Some? {
        var addr := ev.row.toAddress.value;
        var group := if addr in byOrch then byOrch[addr] else [];
        byOrch := byOrch[addr := group + [ev]];
      }
    }
    assert events[..|events|] == events;
    forall a ensures a in byOrch <==> exists e :: e in events && e.row.toAddress == Some(a) {
      GroupInhabited(events, a);
    }
  }

  lemma GroupInhabited(events: seq<Stored>, a: Address)
    ensures Filter(events, SentTo(a)) != [] <==> exists e :: e in events && e.row.toAddress == Some(a)
  {
    if Filter(events, SentTo(a)) != [] {
      FilterKeeps(events, SentTo(a), Filter(events, SentTo(a))[0]);
    }
    if e :| e in events && e.row.toAddress == Some(a) {
      FilterKeeps(events, SentTo(a), e);
    }
  }

  /** The messages for one orchestrator's group. */
  method OrchJobs(events: seq<Stored>, group: seq<Stored>, ai: Address -> bool, orch: Address) returns (jobs: seq<Job>)
    requires group == Filter(events, SentTo(orch))
    ensures jobs == JobsFor(events, ai, orch)
  {
    var tickets := SortBy(group, ByTime());
    var views := Filter(tickets, HasGateway());
    if |views| == 1 && views[0].row.fromAddress.Some? {
      return [Job(orch, views[0].row.timestamp, ai(views[0].row.fromAddress.value), views)];
    }
    jobs := [];
    var kinds := [true, false];
    for k := 0 to 2
      invariant k == 0 ==> jobs == []
      invariant k == 1 ==> jobs == GroupJob(orch, Filter(views, OfKind(ai, true)), true)
      invariant k == 2 ==> jobs == JobsFor(events, ai, orch)
    {
      var members := Filter(views, OfKind(ai, kinds[k]));
      if members != [] {
        jobs := jobs + [Job(orch, Latest(members), kinds[k], members)];
      }
    }
  }

  lemma JobsOneMore(events: seq<Stored>, ai: Address -> bool, walk: seq<Address>, orch: Address)
    ensures JobsInOrder(events, ai, walk + [orch]) == JobsInOrder(events, ai, walk) + JobsFor(events, ai, orch)
  {
    assert (walk + [orch])[..|walk|] == walk;
  }

  /** The jobs of every group, in whatever order the map yields them. */
  method CollectJobs(events: seq<Stored>, ai: Address -> bool) returns (jobs: seq<Job>, ghost walk: seq<Address>)
    ensures IsWalk(events, walk) && jobs == JobsInOrder(events, ai, walk)
  {
    var byOrch := GroupByOrch(events);
    var todo := byOrch.Keys;
    jobs, walk := [], [];
    while todo != {}
      invariant todo <= byOrch.Keys && Distinct(walk)
      invariant forall a :: a in walk <==> a in byOrch && a !in todo
      invariant jobs == JobsInOrder(events, ai, walk)
      decreases todo
    {
      var orch :| orch in todo;
      var mine := OrchJobs(events, byOrch[orch], ai, orch);
      JobsOneMore(events, ai, walk, orch);
      DistinctSnoc(walk, orch);
      jobs, todo, walk := jobs + mine, todo - {orch}, walk + [orch];
    }
  }

  method BuildJobs(events: seq<Stored>, ai: Address -> bool) returns (jobs: seq<Job>, ghost walk: seq<Address>)
    ensures IsWalk(events, walk) && jobs == SortBy(JobsInOrder(events, ai, walk), Before())
    ensures forall other | IsWalk(events, other) :: jobs == SortBy(JobsInOrder(events, ai, other), Before())
    ensures Sorted(jobs, Before())
  {
    var unsorted;
    unsorted, walk := CollectJobs(events, ai);
    jobs := SortBy(unsorted, Before());
    BeforeIsTotalPreorder();
    SortBySorts(unsorted, Before());
    forall other | IsWalk(events, other) ensures jobs == SortBy(JobsInOrder(events, ai, other), Before()) {
      OrderIsDeterministic(events, ai, walk, other);
    }
  }

  function SetOf(ids: seq<T.Id>): set<T.Id> {
    set id | id in ids
  }

  // ---- refreshed copies ------------------------------------------------------------------------------

  /** What the explorer answers when a ticket is looked up: an error, or the ticket if it knows it. */
  datatype Answer = Failed | Looked(found: Option<T.Quote>)

  /** The copy of an event once its valuation, if missing, was looked up. */
  function Copied(t: T.Table, e: Stored, answer: Answer): Stored {
    if T.ValuationMissing(e.row) && answer.Looked? then Stored(e.id, T.RefreshCopy(t, e.id, e.row, answer.found)) else e
  }

  /** The table says the same of every row, valuations aside. */
  ghost predicate SameRows(t: T.Table, u: T.Table) {
    t.Keys == u.Keys && forall id | id in t :: TicketPosting.Bare(u[id]) == TicketPosting.Bare(t[id])
  }

  lemma RefreshKeepsRows(t: T.Table, u: T.Table, id: T.Id, found: Option<T.Quote>)
    requires SameRows(t, u)
    ensures SameRows(t, T.RefreshTable(u, id, found))
  {
  }

  ghost predicate AreCopies(t: T.Table, events: seq<Stored>, answers: seq<Answer>, copies: seq<Stored>) {
    |answers| == |events| == |copies| && forall i | 0 <= i < |events| :: copies[i] == Copied(t, events[i], answers[i])
  }

  lemma CopySaysTheSame(t: T.Table, events: seq<Stored>, answers: seq<Answer>, copies: seq<Stored>, i: nat)
    requires AreCopies(t, events, answers, copies) && i < |events|
    ensures copies[i].id == events[i].id && TicketPosting.Bare(copies[i].row) == TicketPosting.Bare(events[i].row)
  {
  }

  lemma SamePending(t: T.Table, u: T.Table)
    requires SameRows(t, u)
    ensures TicketPosting.Pending(u) == TicketPosting.Pending(t)
  {
    forall id ensures id in TicketPosting.Pending(u) <==> id in TicketPosting.Pending(t) {
      assert id in t ==> TicketPosting.Bare(u[id]) == TicketPosting.Bare(t[id]);
    }
  }

  /** Events that say the same, valuations aside. */
  ghost predicate SayTheSame(a: seq<Stored>, b: seq<Stored>) {
    |a| == |b| && forall i | 0 <= i < |a| ::
      a[i].id == b[i].id && TicketPosting.Bare(a[i].row) == TicketPosting.Bare(b[i].row)
  }

  lemma SameBatch(t: T.Table, u: T.Table, limit: nat, events: seq<Stored>, copies: seq<Stored>)
    requires TicketPosting.IsFetch(t, limit, events) && SameRows(t, u) && SayTheSame(events, copies)
    ensures TicketPosting.IsBatch(u, limit, copies)
  {
    SamePending(t, u);
    assert TicketPosting.Ids(copies) == TicketPosting.Ids(events);
    forall e | e in copies
      ensures e.id in TicketPosting.Pending(u) && TicketPosting.Bare(e.row) == TicketPosting.Bare(u[e.id])
    {
      var i :| 0 <= i < |copies| && copies[i] == e;
      assert events[i] in events;
    }
    SameIds(events);
    SameIds(copies);
    forall id, e | id in TicketPosting.Pending(u) && id !in TicketPosting.IdSet(copies) && e in copies
      ensures e.row.timestamp <= u[id].timestamp
    {
      var i :| 0 <= i < |copies| && copies[i] == e;
      assert events[i] in events && TicketPosting.Bare(u[id]) == TicketPosting.Bare(t[id]);
    }
  }

  lemma CopiesAreBatch(t: T.Table, u: T.Table, limit: nat, events: seq<Stored>, answers: seq<Answer>,
                       copies: seq<Stored>)
    requires TicketPosting.IsFetch(t, limit, events) && SameRows(t, u) && AreCopies(t, events, answers, copies)
    ensures TicketPosting.Pending(u) == TicketPosting.Pending(t) && TicketPosting.IsBatch(u, limit, copies)
    ensures CompleteIds(copies) == CompleteIds(events)
  {
    forall i: nat | i < |events| {
      CopySaysTheSame(t, events, answers, copies, i);
    }
    SamePending(t, u);
    SameBatch(t, u, limit, events, copies);
    SameCompleteIds(events, copies);
    SameCompleteIds(copies, events);
  }

  ghost function CompleteIds(events: seq<Stored>): set<T.Id> {
    TicketPosting.IdSet(Filter(events, e => Complete(e)))
  }

  lemma SameCompleteIds(a: seq<Stored>, b: seq<Stored>)
    requires SayTheSame(a, b)
    ensures CompleteIds(a) <= CompleteIds(b)
  {
    forall id | id in CompleteIds(a) ensures id in CompleteIds(b) {
      var e :| e in Filter(a, e => Complete(e)) && e.id == id;
      FilterKeeps(a, e => Complete(e), e);
      var i :| 0 <= i < |a| && a[i] == e;
      FilterKeeps(b, e => Complete(e), b[i]);
    }
  }

  // ---- what a run sends --------------------------------------------------------------------------------

  /** Of the first `n` jobs, those the webhooks accept. */
  function Taken(jobs: seq<Job>, takes: seq<bool>, n: nat): seq<Job>
    requires n <= |jobs| == |takes|
    decreases n
  {
    if n == 0 then [] else Taken(jobs, takes, n - 1) + if takes[n - 1] then [jobs[n - 1]] else []
  }

  lemma {:induction false} AllTaken(jobs: seq<Job>, takes: seq<bool>, n: nat)
    requires n <= |jobs| == |takes| && forall i | 0 <= i < n :: takes[i]
    ensures Taken(jobs, takes, n) == jobs[..n]
    decreases n
  {
    if n > 0 {
      AllTaken(jobs, takes, n - 1);
      assert jobs[..n] == jobs[..n - 1] + [jobs[n - 1]];
    }
  }

  lemma MarkOneMore(t: T.Table, done: seq<Job>, job: Job)
    ensures T.MarkSent(T.MarkSent(t, TicketPosting.IdSet(AllTickets(done))), TicketPosting.IdSet(job.tickets))
      == T.MarkSent(t, TicketPosting.IdSet(AllTickets(done + [job])))
  {
    AllTicketsSplits(done, [job]);
    AllTicketsOfOne(job);
    assert TicketPosting.IdSet(AllTickets(done + [job]))
      == TicketPosting.IdSet(AllTickets(done)) + TicketPosting.IdSet(job.tickets);
  }

  lemma SameIds(tickets: seq<Stored>)
    ensures SetOf(TicketPosting.Ids(tickets)) == TicketPosting.IdSet(tickets)
  {
    forall id ensures id in SetOf(TicketPosting.Ids(tickets)) <==> id in TicketPosting.IdSet(tickets) {
      TicketPosting.IdSetIsIds(tickets, id);
    }
  }

  class Poster {
    var table: T.Table
    var accepted: seq<Job>
    /** The tickets of accepted sends whose mark failed. */
    ghost var lost: multiset<T.Id>
    /** The run so far. */
    ghost var trace: seq<TicketPosting.State>
    ghost var steps: seq<TicketPosting.Step>

    constructor (table: T.Table)
      ensures this.table == table && accepted == [] && lost == multiset{} && RunTo(TicketPosting.Idle) && |steps| == 0
    {
      this.table, accepted := table, [];
      lost, trace, steps := multiset{}, [TicketPosting.State(table, [], TicketPosting.Idle, multiset{})], [];
    }

    ghost function At(phase: TicketPosting.Phase): TicketPosting.State
      reads this
    {
      TicketPosting.State(table, accepted, phase, lost)
    }

    /** What has happened so far is a run of the machine that has come to `phase`. */
    ghost predicate RunTo(phase: TicketPosting.Phase)
      reads this
    {
      TicketPosting.Run(trace, steps) && trace[|steps|] == At(phase)
    }

    ghost method Record(step: TicketPosting.Step, phase: TicketPosting.Phase)
      requires TicketPosting.Run(trace, steps) && TicketPosting.Next(trace[|steps|], step, At(phase))
      modifies this`trace, this`steps
      ensures RunTo(phase) && old(trace) <= trace
    {
      TicketPosting.RunSnoc(trace, steps, step, At(phase));
      trace, steps := trace + [At(phase)], steps + [step];
    }

    /** One transaction: every listed row is marked, or none if it fails. */
    method MarkSent(ids: seq<T.Id>, commits: bool) returns (ok: bool)
      modifies this`table
      ensures ok == commits && table == if ok then T.MarkSent(old(table), SetOf(ids)) else old(table)
    {
      ok := commits;
      var t := table;
      for i := 0 to |ids|
        invariant t == T.MarkSent(table, SetOf(ids[..i])) && table == old(table)
      {
        if ids[i] in t {
          t := t[ids[i] := t[ids[i]].(sent := true)];
        }
        assert SetOf(ids[..i + 1]) == SetOf(ids[..i]) + {ids[i]};
      }
      assert ids[..|ids|] == ids;
      if ok {
        table := t;
      }
    }

    /** Look up every missing valuation; an explorer error ends the run. */
    method RefreshCopies(events: seq<Stored>, answers: seq<Answer>) returns (ok: bool, copies: seq<Stored>)
      requires |answers| == |events| && RunTo(TicketPosting.Refreshing(events))
      modifies this
      ensures old(trace) <= trace && accepted == old(accepted) && lost == old(lost) && SameRows(old(table), table)
      ensures ok ==> AreCopies(old(table), events, answers, copies) && RunTo(TicketPosting.Refreshing(copies))
      ensures !ok ==> RunTo(TicketPosting.Idle)
      ensures ok <==> forall i | 0 <= i < |events| :: T.ValuationMissing(events[i].row) ==> answers[i].Looked?
    {
      copies := events;
      for k := 0 to |events|
        invariant old(trace) <= trace && accepted == old(accepted) && lost == old(lost) && SameRows(old(table), table)
        invariant RunTo(TicketPosting.Refreshing(copies)) && |copies| == |events|
        invariant forall i | 0 <= i < |events| ::
          copies[i] == if i < k then Copied(old(table), events[i], answers[i]) else events[i]
        invariant forall i | 0 <= i < k :: T.ValuationMissing(events[i].row) ==> answers[i].Looked?
      {
        var ev := copies[k];
        if T.ValuationMissing(ev.row) {
          if answers[k].Failed? {
            Record(TicketPosting.Stop, TicketPosting.Idle);
            return false, copies;
          }
          ghost var was := table;
          var row;
          table, row := T.RefreshEventValuation(table, ev.id, ev.row, answers[k].found);
          RefreshKeepsRows(old(table), was, ev.id, answers[k].found);
          assert T.Reaches(was, ev.id, answers[k].found) == T.Reaches(old(table), ev.id, answers[k].found);
          copies := copies[k := Stored(ev.id, row)];
          Record(TicketPosting.Refresh(k, answers[k].found), TicketPosting.Refreshing(copies));
        }
      }
      ok := true;
    }

    /** One job: sent, and marked if it is accepted; false if the mark fails. */
    method SendJob(job: Job, ghost rest: seq<Job>, takes: bool, marks: bool) returns (ok: bool)
      requires RunTo(TicketPosting.Posting([job] + rest))
      modifies this
      ensures old(trace) <= trace && (ok <==> !takes || marks)
      ensures ok ==> RunTo(TicketPosting.Posting(rest)) && lost == old(lost)
      ensures !ok ==> RunTo(TicketPosting.Idle) && lost == old(lost) + multiset(TicketPosting.Ids(job.tickets))
      ensures accepted == old(accepted) + if takes then [job] else []
      ensures table == if takes && marks then T.MarkSent(old(table), TicketPosting.IdSet(job.tickets)) else old(table)
    {
      assert ([job] + rest)[1..] == rest;
      if !takes {
        Record(TicketPosting.Reject, TicketPosting.Posting(rest));
        return true;
      }
      accepted := accepted + [job];
      Record(TicketPosting.Accept, TicketPosting.Marking(job, rest));
      ok := MarkSent(TicketPosting.Ids(job.tickets), marks);
      SameIds(job.tickets);
      if ok {
        Record(TicketPosting.MarkSent, TicketPosting.Posting(rest));
      } else {
        lost := lost + multiset(TicketPosting.Ids(job.tickets));
        Record(TicketPosting.Lose, TicketPosting.Idle);
      }
    }

    /**
      Of the first `n` jobs those taken have been sent and marked since the table was `t` and `before` was accepted.
    */
    ghost predicate SentSoFar(t: T.Table, before: seq<Job>, jobs: seq<Job>, takes: seq<bool>, n: nat)
      reads this
      requires n <= |jobs| == |takes|
    {
      var done := Taken(jobs, takes, n);
      accepted == before + done && table == T.MarkSent(t, TicketPosting.IdSet(AllTickets(done)))
    }

    /**
      Sends the jobs in order; `takes[i]` is whether the webhooks accept the i-th, `marks[i]` whether its mark
      then goes through. A rejected job stays unsent; a failed mark ends the run with that job sent and unmarked.
    */
    method SendJobs(jobs: seq<Job>, takes: seq<bool>, marks: seq<bool>) returns (ok: bool, n: nat)
      requires |marks| == |takes| == |jobs| && RunTo(TicketPosting.Posting(jobs))
      modifies this
      ensures old(trace) <= trace && n <= |jobs| && (ok <==> n == |jobs|)
      ensures forall i | 0 <= i < n :: takes[i] ==> marks[i]
      ensures table == T.MarkSent(old(table), TicketPosting.IdSet(AllTickets(Taken(jobs, takes, n))))
      ensures ok ==>
        RunTo(TicketPosting.Posting([])) && lost == old(lost) && accepted == old(accepted) + Taken(jobs, takes, n)
      ensures !ok ==> takes[n] && !marks[n] && RunTo(TicketPosting.Idle)
      ensures !ok ==> accepted == old(accepted) + Taken(jobs, takes, n) + [jobs[n]]
      ensures !ok ==> lost == old(lost) + multiset(TicketPosting.Ids(jobs[n].tickets))
    {
      ghost var t0, before, start := table, accepted, trace;
      n := 0;
      assert jobs[0..] == jobs;
      while n < |jobs|
        invariant n <= |jobs| && start <= trace && RunTo(TicketPosting.Posting(jobs[n..])) && lost == old(lost)
        invariant forall i | 0 <= i < n :: takes[i] ==> marks[i]
        invariant SentSoFar(t0, before, jobs, takes, n)
      {
        assert jobs[n..] == [jobs[n]] + jobs[n + 1..];
        OneMoreTaken(t0, before, jobs, takes, n);
        ok := SendJob(jobs[n], jobs[n + 1..], takes[n], marks[n]);
        if !ok {
          return;
        }
        n := n + 1;
      }
      ok := true;
      assert jobs[|jobs|..] == [];
    }

    /** Fetch a batch and bring its copies up to date. */
    method FetchCopies(limit: nat, events: seq<Stored>, answers: seq<Answer>) returns (ok: bool, copies: seq<Stored>)
      requires TicketPosting.IsFetch(table, limit, events) && |answers| == |events| && RunTo(TicketPosting.Idle)
      modifies this
      ensures old(trace) <= trace && lost == old(lost) && (!ok ==> RunTo(TicketPosting.Idle))
      ensures TicketPosting.Pending(table) == TicketPosting.Pending(old(table))
      ensures ok ==> RunTo(TicketPosting.Refreshing(copies)) && TicketPosting.IsBatch(table, limit, copies)
      ensures ok ==> CompleteIds(copies) == CompleteIds(events)
      ensures (forall i | 0 <= i < |events| :: answers[i].Looked?) ==> ok
    {
      Record(TicketPosting.Fetch(limit, events), TicketPosting.Refreshing(events));
      ok, copies := RefreshCopies(events, answers);
      SamePending(old(table), table);
      if ok {
        CopiesAreBatch(old(table), table, limit, events, answers, copies);
      }
    }

    /** Group, sort and send a batch whose copies are ready. */
    method PostBatch(copies: seq<Stored>, ai: Address -> bool, takes: nat -> bool, marks: nat -> bool)
      returns (ok: bool, ghost walk: seq<Address>)
      requires RunTo(TicketPosting.Refreshing(copies))
      modifies this
      ensures old(trace) <= trace && RunTo(TicketPosting.Idle) && IsWalk(copies, walk)
      ensures ok ==> lost == old(lost)
      ensures ok && (forall i :: takes(i)) ==> table == TicketPosting.Drained(old(table), copies, ai, walk)
      ensures (forall i :: takes(i) ==> marks(i)) ==> ok
    {
      var jobs;
      jobs, walk := BuildJobs(copies, ai);
      Record(TicketPosting.Queue(ai, walk), TicketPosting.Posting(jobs));
      var taken, marked := FirstOf(takes, |jobs|), FirstOf(marks, |jobs|);
      var n;
      ok, n := SendJobs(jobs, taken, marked);
      if ok {
        Record(TicketPosting.Stop, TicketPosting.Idle);
        if forall i :: takes(i) {
          AllTaken(jobs, taken, n);
          assert jobs[..n] == jobs;
        }
      }
    }

    /**
      One run over a fetched batch is a run of the state machine. `profiles` says whether the profiles and
      totals the messages need could all be read. When every look-up is answered, every send accepted and
      every mark goes through, the run takes exactly the complete events of the batch off the backlog.
    */
    method RunOnce(limit: nat, events: seq<Stored>, answers: seq<Answer>, profiles: bool, ai: Address -> bool,
                   takes: nat -> bool, marks: nat -> bool)
      returns (ok: bool)
      requires TicketPosting.IsFetch(table, limit, events) && |answers| == |events| && RunTo(TicketPosting.Idle)
      modifies this
      ensures old(trace) <= trace && RunTo(TicketPosting.Idle)
      ensures ok && (forall i :: takes(i)) ==>
        TicketPosting.Pending(table) == TicketPosting.Pending(old(table)) - CompleteIds(events)
      ensures
        profiles && (forall i | 0 <= i < |events| :: answers[i].Looked?) && (forall i :: takes(i) ==> marks(i))
        ==> ok
      ensures ok ==> lost == old(lost)
    {
      var copies;
      ok, copies := FetchCopies(limit, events, answers);
      if !ok {
        return;
      }
      if !profiles {
        Record(TicketPosting.Stop, TicketPosting.Idle);
        return false;
      }
      ghost var refreshed, walk := table, [];
      ok, walk := PostBatch(copies, ai, takes, marks);
      TicketPosting.DrainExactly(refreshed, limit, copies, ai, walk);
    }
  }

  function FirstOf(p: nat -> bool, n: nat): (s: seq<bool>)
    ensures |s| == n && forall i | 0 <= i < n :: s[i] == p(i)
  {
    if n == 0 then [] else FirstOf(p, n - 1) + [p(n - 1)]
  }

  lemma OneMoreTaken(t: T.Table, before: seq<Job>, jobs: seq<Job>, takes: seq<bool>, n: nat)
    requires n < |jobs| == |takes|
    ensures before + Taken(jobs, takes, n) + (if takes[n] then [jobs[n]] else []) == before + Taken(jobs, takes, n + 1)
    ensures var marked := T.MarkSent(t, TicketPosting.IdSet(AllTickets(Taken(jobs, takes, n))));
      (if takes[n] then T.MarkSent(marked, TicketPosting.IdSet(jobs[n].tickets)) else marked)
        == T.MarkSent(t, TicketPosting.IdSet(AllTickets(Taken(jobs, takes, n + 1))))
  {
    var done := Taken(jobs, takes, n);
    if takes[n] {
      MarkOneMore(t, done, jobs[n]);
    } else {
      assert done + [] == done;
    }
  }
}
