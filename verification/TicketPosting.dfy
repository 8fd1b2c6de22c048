/**
  The persist-then-post pipeline as a state machine: the event poller writes the table while the
  digest poster fetches unsent rows, sends its jobs one by one and marks each accepted one sent.
*/
module TicketPosting {
  import opened Sequences
  import opened Wrappers
  import opened Sorting
  import T = Tickets
  import opened DigestJobs

  type Id = T.Id
  type Table = T.Table

  const TICKET := "WinningTicketRedeemed"

  ghost function Pending(t: Table): set<Id> {
    set id | id in t && !t[id].sent && t[id].eventName == TICKET
  }

  /** What a fetched event says, its valuation aside: the refresh may have changed that. */
  function Bare(r: T.Row): T.Row {
    r.(amountUsd := None, nativeUsdPrice := None)
  }

  function Ids(events: seq<Stored>): seq<Id> {
    seq(|events|, i requires 0 <= i < |events| => events[i].id)
  }

  function IdSet(events: seq<Stored>): set<Id> {
    set e | e in events :: e.id
  }

  function Least(a: int, b: int): int {
    if a < b then a else b
  }

  /**
    A batch of pending rows: the oldest, ties broken as the database likes, their valuations possibly refreshed since.
  */
  ghost predicate IsBatch(t: Table, limit: nat, events: seq<Stored>) {
    && Distinct(Ids(events))
    && (forall e | e in events :: e.id in Pending(t) && Bare(e.row) == Bare(t[e.id]))
    && |events| == Least(limit, |Pending(t)|)
    && (forall i, j | 0 <= i < j < |events| :: events[i].row.timestamp <= events[j].row.timestamp)
    && (forall id, e | id in Pending(t) && id !in IdSet(events) && e in events :: e.row.timestamp <= t[id].timestamp)
  }

  /** One answer the query for unsent rows may give. */
  ghost predicate IsFetch(t: Table, limit: nat, events: seq<Stored>) {
    IsBatch(t, limit, events) && forall e | e in events :: e.row == t[e.id]
  }

  /**
    `Refreshing` holds the fetched copies while missing valuations are looked up; `Marking` is the moment
    between an accepted send and the statement that marks it.
  */
  datatype Phase = Idle | Refreshing(events: seq<Stored>) | Posting(jobs: seq<Job>) | Marking(job: Job, rest: seq<Job>)

  /** `lost` counts, for each ticket, the accepted sends whose mark never went through. */
  datatype State = State(table: Table, accepted: seq<Job>, phase: Phase, lost: multiset<Id>)

  datatype Step =
    | Write(op: T.Op)
    | Fetch(limit: nat, events: seq<Stored>)
    | Refresh(k: nat, found: Option<T.Quote>)
    | Queue(ai: Address -> bool, walk: seq<Address>)
    | Accept
    | Reject
    | MarkSent
    | Lose
    | Stop

  /** The copies after the `k`-th was looked up. */
  function WithRefresh(t: Table, events: seq<Stored>, k: nat, found: Option<T.Quote>): seq<Stored>
    requires k < |events|
  {
    events[k := Stored(events[k].id, T.RefreshCopy(t, events[k].id, events[k].row, found))]
  }

  /**
    What one process may do next. `Write` is a statement of the poller, which never marks. `Lose` is a mark
    that fails, or the process dying before it; `Stop` is the end of a run, early or not.
  */
  ghost predicate Next(s: State, step: Step, s': State) {
    match step
    case Write(op) => !op.Mark? && s' == s.(table := T.ApplyOp(s.table, op))
    case Fetch(limit, events) => s.phase.Idle?
      && IsFetch(s.table, limit, events) && s' == s.(phase := Refreshing(events))
    case Refresh(k, found) =>
      s.phase.Refreshing? && k < |s.phase.events| && T.ValuationMissing(s.phase.events[k].row)
      && s' == s.(table := T.RefreshTable(s.table, s.phase.events[k].id, found),
                  phase := Refreshing(WithRefresh(s.table, s.phase.events, k, found)))
    case Queue(ai, walk) =>
      s.phase.Refreshing? && IsWalk(s.phase.events, walk)
      && s' == s.(phase := Posting(SortBy(JobsInOrder(s.phase.events, ai, walk), Before())))
    case Accept =>
      s.phase.Posting? && s.phase.jobs != []
      && s' == s.(accepted := s.accepted + [s.phase.jobs[0]], phase := Marking(s.phase.jobs[0], s.phase.jobs[1..]))
    case Reject => s.phase.Posting? && s.phase.jobs != [] && s' == s.(phase := Posting(s.phase.jobs[1..]))
    case MarkSent =>
      s.phase.Marking?
      && s' == s.(table := T.MarkSent(s.table, IdSet(s.phase.job.tickets)), phase := Posting(s.phase.rest))
    case Lose => s.phase.Marking? && s' == s.(phase := Idle, lost := s.lost + multiset(Ids(s.phase.job.tickets)))
    case Stop => (s.phase.Refreshing? || s.phase.Posting?) && s' == s.(phase := Idle)
  }

  ghost predicate Run(trace: seq<State>, steps: seq<Step>) {
    && |trace| == |steps| + 1
    && forall i | 0 <= i < |steps| :: Next(trace[i], steps[i], trace[i + 1])
  }

  /** How often `id` has been delivered. */
  function Delivered(accepted: seq<Job>, id: Id): nat {
    if accepted == [] then 0
    else Delivered(accepted[..|accepted| - 1], id) + multiset(Ids(accepted[|accepted| - 1].tickets))[id]
  }

  function Waiting(p: Phase): seq<Job> {
    match p
    case Idle => []
    case Refreshing(_) => []
    case Posting(jobs) => jobs
    case Marking(_, rest) => rest
  }

  function InFlight(p: Phase): seq<Stored> {
    if p.Marking? then p.job.tickets else []
  }

  /** A fetched event that is still as it was in the table, its valuation aside, and still unsent. */
  predicate Current(t: Table, e: Stored) {
    e.id in t && !t[e.id].sent && Bare(e.row) == Bare(t[e.id])
  }

  predicate Ready(t: Table, e: Stored) {
    Current(t, e) && Complete(e)
  }

  ghost predicate FetchedOk(t: Table, events: seq<Stored>) {
    Distinct(Ids(events)) && forall e | e in events :: Current(t, e)
  }

  ghost predicate QueueOk(t: Table, queue: seq<Stored>) {
    Distinct(Ids(queue)) && forall e | e in queue :: Ready(t, e)
  }

  /** `already` are the ids that were marked before the run began, `flying` those sent but not yet marked. */
  predicate CountOk(t: Table, accepted: seq<Job>, lost: multiset<Id>, flying: set<Id>, already: set<Id>, id: Id) {
    Delivered(accepted, id)
      == lost[id] + (if id in t && t[id].sent && id !in already then 1 else 0) + (if id in flying then 1 else 0)
  }

  ghost predicate DeliveriesOk(t: Table, accepted: seq<Job>, lost: multiset<Id>, flying: set<Id>, already: set<Id>) {
    forall id :: CountOk(t, accepted, lost, flying, already, id)
  }

  ghost predicate MarkedOk(t: Table, already: set<Id>) {
    && (forall id | id in already :: id in t && t[id].sent)
    && forall id | id in t && t[id].sent && id !in already :: t[id].fromAddress.Some? && t[id].toAddress.Some?
  }

  /** Only tickets with both addresses, unmarked when the run began, are ever lost. */
  ghost predicate LostOk(t: Table, lost: multiset<Id>, already: set<Id>) {
    forall id | id in lost :: id in t && id !in already && t[id].fromAddress.Some? && t[id].toAddress.Some?
  }

  ghost predicate Inv(s: State, already: set<Id>) {
    && QueueOk(s.table, InFlight(s.phase) + AllTickets(Waiting(s.phase)))
    && DeliveriesOk(s.table, s.accepted, s.lost, IdSet(InFlight(s.phase)), already)
    && MarkedOk(s.table, already) && LostOk(s.table, s.lost, already)
    && (s.phase.Refreshing? ==> FetchedOk(s.table, s.phase.events))
  }

  // ---- the invariant, step by step ---------------------------------------------------------------

  lemma WriteKeepsRows(t: Table, op: T.Op)
    requires !op.Mark?
    ensures var u := T.ApplyOp(t, op);
      && t.Keys <= u.Keys
      && (forall id | id in t :: u[id].sent == t[id].sent && Bare(u[id]) == Bare(t[id]))
      && (forall id | id in u && id !in t :: !u[id].sent)
  {
    forall id | id in t ensures T.ApplyOp(t, op)[id].sent == t[id].sent && Bare(T.ApplyOp(t, op)[id]) == Bare(t[id]) {
      T.OpOnRow(t, op, id);
    }
  }

  lemma IdSetIsIds(events: seq<Stored>, id: Id)
    ensures id in IdSet(events) <==> id in Ids(events)
  {
    if id in IdSet(events) {
      var e :| e in events && e.id == id;
      var i :| 0 <= i < |events| && events[i] == e;
      assert Ids(events)[i] == id;
    }
    if id in Ids(events) {
      var i :| 0 <= i < |events| && Ids(events)[i] == id;
      assert events[i] in events;
    }
  }

  lemma {:induction false} DistinctCount(ids: seq<Id>, id: Id)
    requires Distinct(ids)
    ensures multiset(ids)[id] == if id in ids then 1 else 0
  {
    if ids != [] {
      var init, last := ids[..|ids| - 1], ids[|ids| - 1];
      assert ids == init + [last];
      assert last !in init;
      DistinctCount(init, id);
    }
  }

  lemma {:induction false} IdsCount(events: seq<Stored>, other: seq<Stored>)
    requires multiset(events) <= multiset(other) && Distinct(Ids(other))
    ensures Distinct(Ids(events)) && forall e | e in events :: e in other
  {
    forall e | e in events ensures e in other {
      assert e in multiset(events);
    }
    DistinctEvents(other);
    forall e ensures multiset(events)[e] <= 1 {
    }
    OnceEach(events);
    forall i, j | 0 <= i < j < |events| ensures Ids(events)[i] != Ids(events)[j] {
      assert events[i] in other && events[j] in other;
      var k :| 0 <= k < |other| && other[k] == events[i];
      var l :| 0 <= l < |other| && other[l] == events[j];
      assert events[i] != events[j];
      assert Ids(other)[k] == events[i].id && Ids(other)[l] == events[j].id;
    }
  }

  lemma {:induction false} DistinctEvents(events: seq<Stored>)
    requires Distinct(Ids(events))
    ensures forall e :: multiset(events)[e] <= 1
  {
    if events != [] {
      var init, last := events[..|events| - 1], events[|events| - 1];
      assert events == init + [last];
      assert Ids(init) == Ids(events)[..|init|];
      DistinctEvents(init);
      forall i | 0 <= i < |init| ensures init[i] != last {
        assert Ids(events)[i] != Ids(events)[|init|];
      }
    }
  }

  lemma {:induction false} OnceEach(events: seq<Stored>)
    requires forall e :: multiset(events)[e] <= 1
    ensures forall i, j | 0 <= i < j < |events| :: events[i] != events[j]
  {
    if events != [] {
      var init, last := events[..|events| - 1], events[|events| - 1];
      assert events == init + [last];
      forall e ensures multiset(init)[e] <= 1 {
        assert multiset(events)[e] == multiset(init)[e] + multiset([last])[e];
      }
      OnceEach(init);
      assert multiset(events)[last] == multiset(init)[last] + 1;
      assert last !in init;
    }
  }

  lemma TicketsCons(j: Job, jobs: seq<Job>)
    ensures multiset(AllTickets([j] + jobs)) == multiset(j.tickets) + multiset(AllTickets(jobs))
  {
    assert ([j] + jobs)[1..] == jobs;
  }

  lemma {:induction false} InsertKeepsTickets(j: Job, jobs: seq<Job>, le: (Job, Job) -> bool)
    ensures multiset(AllTickets(Insert(j, jobs, le))) == multiset(j.tickets) + multiset(AllTickets(jobs))
  {
    if jobs == [] || le(j, jobs[0]) {
      TicketsCons(j, jobs);
      assert [j] + [] == [j];
    } else {
      InsertKeepsTickets(j, jobs[1..], le);
      TicketsCons(jobs[0], Insert(j, jobs[1..], le));
    }
  }

  /** Sorting jobs keeps their tickets. */
  lemma {:induction false} SortKeepsTickets(jobs: seq<Job>, le: (Job, Job) -> bool)
    ensures multiset(AllTickets(SortBy(jobs, le))) == multiset(AllTickets(jobs))
  {
    if jobs != [] {
      SortKeepsTickets(jobs[1..], le);
      InsertKeepsTickets(jobs[0], SortBy(jobs[1..], le), le);
    }
  }

  lemma QueuedTickets(events: seq<Stored>, ai: Address -> bool, walk: seq<Address>)
    requires IsWalk(events, walk)
    ensures multiset(AllTickets(SortBy(JobsInOrder(events, ai, walk), Before())))
      == multiset(Filter(events, e => Complete(e)))
  {
    JobsPartition(events, ai, walk);
    SortKeepsTickets(JobsInOrder(events, ai, walk), Before());
  }

  lemma FilterIsPart(events: seq<Stored>, part: seq<Stored>)
    requires multiset(part) == multiset(Filter(events, e => Complete(e))) && Distinct(Ids(events))
    ensures Distinct(Ids(part)) && forall e | e in part :: e in events && Complete(e)
  {
    forall e ensures multiset(part)[e] == if Complete(e) then multiset(events)[e] else 0 {
      FilterCount(events, e => Complete(e), e);
    }
    assert multiset(part) <= multiset(events);
    IdsCount(part, events);
    forall e | e in part ensures Complete(e) {
      assert multiset(part)[e] > 0;
    }
  }

  /** What is queued up: exactly the complete events fetched, each once. */
  lemma FetchedJobs(events: seq<Stored>, ai: Address -> bool, walk: seq<Address>)
    requires Distinct(Ids(events)) && IsWalk(events, walk)
    ensures var tickets := AllTickets(SortBy(JobsInOrder(events, ai, walk), Before()));
      && multiset(tickets) == multiset(Filter(events, e => Complete(e)))
      && Distinct(Ids(tickets))
      && forall e | e in tickets :: e in events && Complete(e)
  {
    QueuedTickets(events, ai, walk);
    FilterIsPart(events, AllTickets(SortBy(JobsInOrder(events, ai, walk), Before())));
  }

  lemma NothingInFlight(jobs: seq<Job>)
    ensures InFlight(Posting(jobs)) + AllTickets(Waiting(Posting(jobs))) == AllTickets(jobs)
    ensures IdSet(InFlight(Posting(jobs))) == {} == IdSet(InFlight(Idle))
  {
  }

  lemma FetchKeepsInv(s: State, limit: nat, events: seq<Stored>, already: set<Id>)
    requires Inv(s, already) && s.phase.Idle? && IsFetch(s.table, limit, events)
    ensures Inv(s.(phase := Refreshing(events)), already)
  {
    forall e | e in events ensures Current(s.table, e) {
      assert e.id in Pending(s.table);
    }
  }

  lemma QueueKeepsInv(s: State, ai: Address -> bool, walk: seq<Address>, already: set<Id>)
    requires Inv(s, already) && s.phase.Refreshing? && IsWalk(s.phase.events, walk)
    ensures Inv(s.(phase := Posting(SortBy(JobsInOrder(s.phase.events, ai, walk), Before()))), already)
  {
    var events := s.phase.events;
    var jobs := SortBy(JobsInOrder(events, ai, walk), Before());
    FetchedJobs(events, ai, walk);
    NothingInFlight(jobs);
    forall e | e in AllTickets(jobs) ensures Ready(s.table, e) {
      assert e in events && Current(s.table, e);
    }
  }

  lemma WriteKeepsInv(s: State, op: T.Op, already: set<Id>)
    requires Inv(s, already) && !op.Mark?
    ensures Inv(s.(table := T.ApplyOp(s.table, op)), already)
  {
    var t, u := s.table, T.ApplyOp(s.table, op);
    WriteKeepsRows(t, op);
    forall id ensures CountOk(u, s.accepted, s.lost, IdSet(InFlight(s.phase)), already, id) {
      assert CountOk(t, s.accepted, s.lost, IdSet(InFlight(s.phase)), already, id);
    }
    forall id | id in u && u[id].sent && id !in already ensures u[id].fromAddress.Some? && u[id].toAddress.Some? {
      assert id in t && Bare(u[id]) == Bare(t[id]);
    }
    forall id | id in s.lost ensures id in u && u[id].fromAddress.Some? && u[id].toAddress.Some? {
      assert id in t && Bare(u[id]) == Bare(t[id]);
    }
    forall e | e in InFlight(s.phase) + AllTickets(Waiting(s.phase)) ensures Ready(u, e) {
      assert Ready(t, e);
    }
    if s.phase.Refreshing? {
      forall e | e in s.phase.events ensures Current(u, e) {
        assert Current(t, e);
      }
    }
  }

  /** A refresh writes the table as a repair does, and of the copy it changes the valuation alone. */
  lemma RefreshKeepsInv(s: State, k: nat, found: Option<T.Quote>, already: set<Id>)
    requires Inv(s, already) && s.phase.Refreshing? && k < |s.phase.events|
    ensures var t' := T.RefreshTable(s.table, s.phase.events[k].id, found);
      Inv(s.(table := t', phase := Refreshing(WithRefresh(s.table, s.phase.events, k, found))), already)
  {
    var events, id := s.phase.events, s.phase.events[k].id;
    var u := s;
    if T.Reaches(s.table, id, found) {
      WriteKeepsInv(s, T.RepairOp(id, found.value.usd, found.value.price), already);
      u := s.(table := T.RefreshTable(s.table, id, found));
    }
    var events' := WithRefresh(s.table, events, k, found);
    assert Ids(events') == Ids(events);
    forall e | e in events' ensures Current(u.table, e) {
      var i :| 0 <= i < |events'| && events'[i] == e;
      assert Current(u.table, events[i]) && Bare(e.row) == Bare(events[i].row);
    }
  }

  lemma DeliveredSnoc(accepted: seq<Job>, j: Job, id: Id)
    requires Distinct(Ids(j.tickets))
    ensures Delivered(accepted + [j], id) == Delivered(accepted, id) + if id in IdSet(j.tickets) then 1 else 0
  {
    assert (accepted + [j])[..|accepted|] == accepted;
    DistinctCount(Ids(j.tickets), id);
    IdSetIsIds(j.tickets, id);
  }

  lemma DistinctParts(a: seq<Stored>, b: seq<Stored>)
    requires Distinct(Ids(a + b))
    ensures Distinct(Ids(a)) && Distinct(Ids(b)) && IdSet(a) !! IdSet(b)
  {
    assert forall i | 0 <= i < |a| :: Ids(a + b)[i] == Ids(a)[i];
    assert forall i | 0 <= i < |b| :: Ids(a + b)[|a| + i] == Ids(b)[i];
    forall i, j | 0 <= i < |a| && 0 <= j < |b| ensures Ids(a)[i] != Ids(b)[j] {
      assert Ids(a + b)[i] != Ids(a + b)[|a| + j];
    }
    forall id | id in IdSet(a) ensures id !in IdSet(b) {
      IdSetIsIds(a, id);
      IdSetIsIds(b, id);
    }
  }

  lemma AcceptKeepsInv(s: State, already: set<Id>)
    requires Inv(s, already) && s.phase.Posting? && s.phase.jobs != []
    ensures Inv(s.(accepted := s.accepted + [s.phase.jobs[0]], phase := Marking(s.phase.jobs[0], s.phase.jobs[1..])),
      already)
  {
    var jobs := s.phase.jobs;
    NothingInFlight(jobs);
    DistinctParts(jobs[0].tickets, AllTickets(jobs[1..]));
    forall id ensures CountOk(s.table, s.accepted + [jobs[0]], s.lost, IdSet(jobs[0].tickets), already, id) {
      assert CountOk(s.table, s.accepted, s.lost, {}, already, id);
      DeliveredSnoc(s.accepted, jobs[0], id);
    }
  }

  lemma RejectKeepsInv(s: State, already: set<Id>)
    requires Inv(s, already) && s.phase.Posting? && s.phase.jobs != []
    ensures Inv(s.(phase := Posting(s.phase.jobs[1..])), already)
  {
    var jobs := s.phase.jobs;
    NothingInFlight(jobs);
    NothingInFlight(jobs[1..]);
    DistinctParts(jobs[0].tickets, AllTickets(jobs[1..]));
  }

  lemma MarkKeepsCounts(t: Table, accepted: seq<Job>, lost: multiset<Id>, sent: seq<Stored>, already: set<Id>)
    requires DeliveriesOk(t, accepted, lost, IdSet(sent), already) && MarkedOk(t, already)
    requires forall e | e in sent :: Ready(t, e)
    ensures DeliveriesOk(T.MarkSent(t, IdSet(sent)), accepted, lost, {}, already)
      && MarkedOk(T.MarkSent(t, IdSet(sent)), already)
  {
    var u := T.MarkSent(t, IdSet(sent));
    forall id | id in IdSet(sent) ensures id in t && !t[id].sent && t[id].fromAddress.Some? && t[id].toAddress.Some? {
      var e :| e in sent && e.id == id;
      assert Ready(t, e);
    }
    forall id ensures CountOk(u, accepted, lost, {}, already, id) {
      assert CountOk(t, accepted, lost, IdSet(sent), already, id);
    }
  }

  lemma MarkKeepsInv(s: State, already: set<Id>)
    requires Inv(s, already) && s.phase.Marking?
    ensures Inv(s.(table := T.MarkSent(s.table, IdSet(s.phase.job.tickets)), phase := Posting(s.phase.rest)), already)
  {
    var sent, rest := s.phase.job.tickets, AllTickets(s.phase.rest);
    DistinctParts(sent, rest);
    NothingInFlight(s.phase.rest);
    MarkKeepsCounts(s.table, s.accepted, s.lost, sent, already);
    forall e | e in rest ensures Ready(T.MarkSent(s.table, IdSet(sent)), e) {
      assert e in sent + rest && Ready(s.table, e) && e.id in IdSet(rest);
    }
  }

  /** A lost mark leaves the tickets delivered and unmarked: they move from in flight to lost. */
  lemma LoseKeepsInv(s: State, already: set<Id>)
    requires Inv(s, already) && s.phase.Marking?
    ensures Inv(s.(phase := Idle, lost := s.lost + multiset(Ids(s.phase.job.tickets))), already)
  {
    var sent := s.phase.job.tickets;
    var lost := s.lost + multiset(Ids(sent));
    DistinctParts(sent, AllTickets(s.phase.rest));
    assert IdSet(InFlight(Idle)) == {};
    forall id ensures CountOk(s.table, s.accepted, lost, {}, already, id) {
      assert CountOk(s.table, s.accepted, s.lost, IdSet(sent), already, id);
      DistinctCount(Ids(sent), id);
      IdSetIsIds(sent, id);
    }
    forall id | id in lost
      ensures id in s.table && id !in already && s.table[id].fromAddress.Some? && s.table[id].toAddress.Some?
    {
      if id !in s.lost {
        IdSetIsIds(sent, id);
        var e :| e in sent && e.id == id;
        assert e in InFlight(s.phase) + AllTickets(Waiting(s.phase)) && Ready(s.table, e);
      }
    }
  }

  lemma StopKeepsInv(s: State, already: set<Id>)
    requires Inv(s, already) && (s.phase.Refreshing? || s.phase.Posting?)
    ensures Inv(s.(phase := Idle), already)
  {
    assert InFlight(s.phase) == [] == InFlight(Idle);
  }

  lemma StepKeepsInv(s: State, step: Step, s': State, already: set<Id>)
    requires Inv(s, already) && Next(s, step, s')
    ensures Inv(s', already)
  {
    match step
    case Write(op) => WriteKeepsInv(s, op, already);
    case Fetch(limit, events) => FetchKeepsInv(s, limit, events, already);
    case Refresh(k, found) => RefreshKeepsInv(s, k, found, already);
    case Queue(ai, walk) => QueueKeepsInv(s, ai, walk, already);
    case Accept => AcceptKeepsInv(s, already);
    case Reject => RejectKeepsInv(s, already);
    case MarkSent => MarkKeepsInv(s, already);
    case Lose => LoseKeepsInv(s, already);
    case Stop => StopKeepsInv(s, already);
  }

  // ---- exactly once ------------------------------------------------------------------------------

  ghost function SentIds(t: Table): set<Id> {
    set id | id in t && t[id].sent
  }

  /** A run may begin with any table, before anything is fetched or delivered. */
  predicate Initial(s: State) {
    s.accepted == [] && s.phase.Idle? && s.lost == multiset{}
  }

  lemma InitialInv(s: State)
    requires Initial(s)
    ensures Inv(s, SentIds(s.table))
  {
  }

  lemma StepOfRun(trace: seq<State>, steps: seq<Step>, i: nat, already: set<Id>)
    requires Run(trace, steps) && 0 < i < |trace| && Inv(trace[i - 1], already)
    ensures Inv(trace[i], already)
  {
    assert Next(trace[i - 1], steps[i - 1], trace[i - 1 + 1]);
    StepKeepsInv(trace[i - 1], steps[i - 1], trace[i], already);
  }

  lemma {:induction false} RunKeepsInv(trace: seq<State>, steps: seq<Step>, i: nat)
    requires Run(trace, steps) && Initial(trace[0]) && i < |trace|
    ensures Inv(trace[i], SentIds(trace[0].table))
    decreases i
  {
    if i == 0 {
      InitialInv(trace[0]);
    } else {
      RunKeepsInv(trace, steps, i - 1);
      StepOfRun(trace, steps, i, SentIds(trace[0].table));
    }
  }

  /**
    In every interleaving of the poller's writes with the poster's runs, whatever is accepted, rejected,
    lost or cut short: between sends, a row that was unsent at the start has been delivered once for
    every mark that was lost and once more exactly if it is marked sent; so exactly once if it is marked
    and no mark was lost. A row lacking an address is never delivered and never marked.
  */
  lemma ExactlyOnce(trace: seq<State>, steps: seq<Step>, i: nat, id: Id)
    requires Run(trace, steps) && Initial(trace[0]) && i < |trace| && !trace[i].phase.Marking?
    ensures var s := trace[i];
      if id in s.table && id !in SentIds(trace[0].table) then
        && Delivered(s.accepted, id) == s.lost[id] + (if s.table[id].sent then 1 else 0)
        && (Delivered(s.accepted, id) > 0 ==> s.table[id].fromAddress.Some? && s.table[id].toAddress.Some?)
      else Delivered(s.accepted, id) == 0 == s.lost[id]
  {
    RunKeepsInv(trace, steps, i);
    var s, already := trace[i], SentIds(trace[0].table);
    assert CountOk(s.table, s.accepted, s.lost, IdSet(InFlight(s.phase)), already, id);
  }

  /**
    At every moment a ticket has been delivered at most once more often than its mark was lost; while a
    job awaits its mark, its tickets have been delivered that once more and are not yet marked.
  */
  lemma TwiceOnlyIfLost(trace: seq<State>, steps: seq<Step>, i: nat, id: Id)
    requires Run(trace, steps) && Initial(trace[0]) && i < |trace|
    ensures Delivered(trace[i].accepted, id) <= trace[i].lost[id] + 1
    ensures id in IdSet(InFlight(trace[i].phase)) ==>
      Delivered(trace[i].accepted, id) == trace[i].lost[id] + 1 && id in trace[i].table && !trace[i].table[id].sent
  {
    RunKeepsInv(trace, steps, i);
    var s := trace[i];
    assert CountOk(s.table, s.accepted, s.lost, IdSet(InFlight(s.phase)), SentIds(trace[0].table), id);
    if id in IdSet(InFlight(s.phase)) {
      var e :| e in InFlight(s.phase) && e.id == id;
      assert e in InFlight(s.phase) + AllTickets(Waiting(s.phase)) && Ready(s.table, e);
    }
  }

  lemma FilterOne(e: Stored, p: Stored -> bool)
    requires p(e)
    ensures Filter([e], p) == [e]
  {
    assert [e][..0] == [];
  }

  lemma OneTicketJobs(e: Stored, ai: Address -> bool)
    requires Complete(e)
    ensures JobsFor([e], ai, e.row.toAddress.value)
      == [Job(e.row.toAddress.value, e.row.timestamp, ai(e.row.fromAddress.value), [e])]
  {
    FilterOne(e, SentTo(e.row.toAddress.value));
    FilterOne(e, HasGateway());
    assert SortBy([e], ByTime()) == [e];
  }

  lemma OneTicketQueue(e: Stored, ai: Address -> bool)
    requires Complete(e)
    ensures IsWalk([e], [e.row.toAddress.value])
    ensures SortBy(JobsInOrder([e], ai, [e.row.toAddress.value]), Before())
      == [Job(e.row.toAddress.value, e.row.timestamp, ai(e.row.fromAddress.value), [e])]
  {
    var orch := e.row.toAddress.value;
    var job := Job(orch, e.row.timestamp, ai(e.row.fromAddress.value), [e]);
    OneTicketJobs(e, ai);
    assert [orch][..0] == [] && [] + [job] == [job];
    assert JobsInOrder([e], ai, [orch]) == [job];
    assert e in [e];
  }

  lemma RunSnoc(trace: seq<State>, steps: seq<Step>, step: Step, next: State)
    requires Run(trace, steps) && Next(trace[|steps|], step, next)
    ensures Run(trace + [next], steps + [step]) && (trace + [next])[|steps| + 1] == next
  {
  }

  lemma RunThree(trace: seq<State>, steps: seq<Step>, p: Step, a: State, q: Step, b: State, r: Step, c: State)
    requires Run(trace, steps) && Next(trace[|steps|], p, a) && Next(a, q, b) && Next(b, r, c)
    ensures Run(trace + [a] + [b] + [c], steps + [p] + [q] + [r])
    ensures (trace + [a] + [b] + [c])[|steps + [p] + [q] + [r]|] == c && (trace + [a] + [b] + [c])[0] == trace[0]
  {
    RunSnoc(trace, steps, p, a);
    RunSnoc(trace + [a], steps + [p], q, b);
    RunSnoc(trace + [a] + [b], steps + [p] + [q], r, c);
  }

  /** The steps of a run over a table of one ticket, up to the accepted send. */
  lemma SendSteps(s: State, e: Stored, ai: Address -> bool) returns (a: State, b: State, c: State)
    requires s.phase.Idle? && s.table == map[e.id := e.row]
    requires Complete(e) && !e.row.sent && e.row.eventName == "WinningTicketRedeemed"
    ensures Next(s, Fetch(1, [e]), a) && Next(a, Queue(ai, [e.row.toAddress.value]), b) && Next(b, Accept, c)
    ensures c.table == s.table && c.phase.Marking?
      && c.phase.job.tickets == [e] && c.accepted == s.accepted + [c.phase.job]
  {
    OneTicketQueue(e, ai);
    assert Pending(s.table) == {e.id};
    var job := Job(e.row.toAddress.value, e.row.timestamp, ai(e.row.fromAddress.value), [e]);
    a, b := s.(phase := Refreshing([e])), s.(phase := Posting([job]));
    c := b.(accepted := s.accepted + [job], phase := Marking(job, [job][1..]));
  }

  lemma SendsOnce(trace: seq<State>, steps: seq<Step>, e: Stored, ai: Address -> bool)
    returns (trace': seq<State>, steps': seq<Step>)
    requires Run(trace, steps) && trace[|steps|].phase.Idle? && trace[|steps|].table == map[e.id := e.row]
    requires Complete(e) && !e.row.sent && e.row.eventName == "WinningTicketRedeemed"
    ensures Run(trace', steps') && trace'[0] == trace[0]
    ensures var s, s' := trace[|steps|], trace'[|steps'|];
      && s'.table == s.table && s'.phase.Marking? && s'.phase.job.tickets == [e]
      && Delivered(s'.accepted, e.id) == Delivered(s.accepted, e.id) + 1
  {
    var s := trace[|steps|];
    var a, b, c := SendSteps(s, e, ai);
    var walk := [e.row.toAddress.value];
    RunThree(trace, steps, Fetch(1, [e]), a, Queue(ai, walk), b, Accept, c);
    trace', steps' := trace + [a] + [b] + [c], steps + [Fetch(1, [e])] + [Queue(ai, walk)] + [Accept];
    DeliveredSnoc(s.accepted, c.phase.job, e.id);
  }

  /** A mark that fails after its send was accepted: the next run sends the ticket again. */
  lemma LostMarkSendsTwice(e: Stored, ai: Address -> bool) returns (trace: seq<State>, steps: seq<Step>)
    requires Complete(e) && !e.row.sent && e.row.eventName == "WinningTicketRedeemed"
    ensures Run(trace, steps) && Initial(trace[0]) && trace[0].table == map[e.id := e.row]
    ensures Delivered(trace[|steps|].accepted, e.id) == 2
  {
    trace, steps := [State(map[e.id := e.row], [], Idle, multiset{})], [];
    trace, steps := SendsOnce(trace, steps, e, ai);
    var s := trace[|steps|];
    var idle := s.(phase := Idle, lost := s.lost + multiset(Ids(s.phase.job.tickets)));
    RunSnoc(trace, steps, Lose, idle);
    trace, steps := SendsOnce(trace + [idle], steps + [Lose], e, ai);
  }

  // ---- draining the backlog --------------------------------------------------------------------------

  /** The table after one undisturbed run of the poster whose every send is accepted. */
  function Drained(t: Table, events: seq<Stored>, ai: Address -> bool, walk: seq<Address>): Table {
    T.MarkSent(t, IdSet(AllTickets(SortBy(JobsInOrder(events, ai, walk), Before()))))
  }

  lemma {:induction false} IdSetSize(events: seq<Stored>)
    requires Distinct(Ids(events))
    ensures |IdSet(events)| == |events|
  {
    if events != [] {
      var init, last := events[..|events| - 1], events[|events| - 1];
      assert events == init + [last];
      assert Ids(init) == Ids(events)[..|init|];
      IdSetSize(init);
      forall i | 0 <= i < |init| ensures Ids(init)[i] != last.id {
        assert Ids(events)[i] != Ids(events)[|init|];
      }
      IdSetIsIds(init, last.id);
      assert IdSet(events) == IdSet(init) + {last.id};
    }
  }

  lemma SameTickets(a: seq<Stored>, b: seq<Stored>)
    requires multiset(a) == multiset(b)
    ensures IdSet(a) == IdSet(b) && |a| == |b|
  {
    forall e ensures e in a <==> e in b {
      assert e in a <==> e in multiset(a);
      assert e in b <==> e in multiset(b);
    }
    assert |multiset(a)| == |a| && |multiset(b)| == |b|;
  }

  lemma MarkingClears(t: Table, ids: set<Id>)
    requires ids <= Pending(t)
    ensures Pending(T.MarkSent(t, ids)) == Pending(t) - ids
    ensures |Pending(T.MarkSent(t, ids))| == |Pending(t)| - |ids|
    ensures T.MarkSent(t, ids) == t <==> ids == {}
  {
    assert Pending(T.MarkSent(t, ids)) == Pending(t) - ids;
    if ids != {} {
      var id :| id in ids;
      assert T.MarkSent(t, ids)[id].sent && !t[id].sent;
    } else {
      assert T.MarkSent(t, ids) == t;
    }
  }

  /** One run takes exactly the complete events it fetched off the backlog, and nothing else. */
  lemma DrainExactly(t: Table, limit: nat, events: seq<Stored>, ai: Address -> bool, walk: seq<Address>)
    requires IsBatch(t, limit, events) && IsWalk(events, walk)
    ensures Pending(Drained(t, events, ai, walk)) == Pending(t) - IdSet(Filter(events, e => Complete(e)))
    ensures |Pending(Drained(t, events, ai, walk))| == |Pending(t)| - |Filter(events, e => Complete(e))|
    ensures Drained(t, events, ai, walk) == t <==> Filter(events, e => Complete(e)) == []
  {
    var tickets := AllTickets(SortBy(JobsInOrder(events, ai, walk), Before()));
    FetchedJobs(events, ai, walk);
    SameTickets(tickets, Filter(events, e => Complete(e)));
    IdSetSize(tickets);
    assert IdSet(tickets) <= Pending(t);
    MarkingClears(t, IdSet(tickets));
  }

  ghost predicate WellFormedRows(t: Table) {
    forall id | id in t :: t[id].fromAddress.Some? && t[id].toAddress.Some?
  }

  lemma {:induction false} FilterAll(events: seq<Stored>, p: Stored -> bool)
    requires forall e | e in events :: p(e)
    ensures Filter(events, p) == events
  {
    if events != [] {
      var init, last := events[..|events| - 1], events[|events| - 1];
      assert events == init + [last];
      assert last in events && forall e | e in init :: e in events;
      FilterAll(init, p);
    }
  }

  /** With both addresses on every row, each run takes min(limit, backlog) off the backlog. */
  lemma BacklogFalls(t: Table, limit: nat, events: seq<Stored>, ai: Address -> bool, walk: seq<Address>)
    requires WellFormedRows(t) && IsBatch(t, limit, events) && IsWalk(events, walk)
    ensures |Pending(Drained(t, events, ai, walk))| == |Pending(t)| - Least(limit, |Pending(t)|)
    ensures WellFormedRows(Drained(t, events, ai, walk))
  {
    forall e | e in events ensures Complete(e) {
      assert e.id in t && Bare(e.row) == Bare(t[e.id]);
    }
    FilterAll(events, e => Complete(e));
    DrainExactly(t, limit, events, ai, walk);
  }

  datatype Round = Round(events: seq<Stored>, ai: Address -> bool, walk: seq<Address>)

  /** Successive undisturbed runs, each fetching from what the one before it left. */
  ghost predicate Rounds(t: Table, limit: nat, rounds: seq<Round>)
    decreases |rounds|
  {
    rounds == [] ||
    (IsBatch(t, limit, rounds[0].events) && IsWalk(rounds[0].events, rounds[0].walk)
     && Rounds(Drained(t, rounds[0].events, rounds[0].ai, rounds[0].walk), limit, rounds[1..]))
  }

  function AfterRounds(t: Table, rounds: seq<Round>): Table
    decreases |rounds|
  {
    if rounds == [] then t
    else AfterRounds(Drained(t, rounds[0].events, rounds[0].ai, rounds[0].walk), rounds[1..])
  }

  function LeftAfter(backlog: nat, limit: nat, runs: nat): nat {
    if runs == 0 then backlog else LeftAfter(backlog - Least(limit, backlog), limit, runs - 1)
  }

  lemma {:induction false} LeftInClosedForm(backlog: nat, limit: nat, runs: nat)
    ensures LeftAfter(backlog, limit, runs) == if backlog > runs * limit then backlog - runs * limit else 0
  {
    if runs > 0 {
      LeftInClosedForm(backlog - Least(limit, backlog), limit, runs - 1);
      assert (runs - 1) * limit + limit == runs * limit;
      assert 0 <= (runs - 1) * limit;
    }
  }

  lemma {:induction false} RoundsTakeTheirShare(t: Table, limit: nat, rounds: seq<Round>)
    requires WellFormedRows(t) && Rounds(t, limit, rounds)
    ensures |Pending(AfterRounds(t, rounds))| == LeftAfter(|Pending(t)|, limit, |rounds|)
    decreases |rounds|
  {
    if rounds != [] {
      var r := rounds[0];
      BacklogFalls(t, limit, r.events, r.ai, r.walk);
      RoundsTakeTheirShare(Drained(t, r.events, r.ai, r.walk), limit, rounds[1..]);
    }
  }

  /** The backlog reaches zero after as many runs as it holds batches, and not before. */
  lemma BacklogDrains(t: Table, limit: nat, rounds: seq<Round>)
    requires WellFormedRows(t) && Rounds(t, limit, rounds)
    ensures |Pending(AfterRounds(t, rounds))|
      == if |Pending(t)| > |rounds| * limit then |Pending(t)| - |rounds| * limit else 0
  {
    RoundsTakeTheirShare(t, limit, rounds);
    LeftInClosedForm(|Pending(t)|, limit, |rounds|);
  }

  /** Rows without an address can fill a whole fetch: the run then changes nothing, and otherwise it does. */
  lemma IncompleteRowsStarve(t: Table, limit: nat, events: seq<Stored>, ai: Address -> bool, walk: seq<Address>)
    requires IsBatch(t, limit, events) && IsWalk(events, walk)
    ensures Drained(t, events, ai, walk) == t <==> forall e | e in events :: !Complete(e)
  {
    DrainExactly(t, limit, events, ai, walk);
    forall e ensures e in Filter(events, e => Complete(e)) <==> e in events && Complete(e) {
      FilterKeeps(events, e => Complete(e), e);
    }
    if Filter(events, e => Complete(e)) != [] {
      assert Filter(events, e => Complete(e))[0] in events;
    }
  }

  // ---- oldest first ----------------------------------------------------------------------------------

  /** A run whose sends are accepted leaves no complete row that is older than one it took. */
  lemma TakesOldest(t: Table, limit: nat, events: seq<Stored>, ai: Address -> bool, walk: seq<Address>,
                    e: Stored, id: Id)
    requires IsBatch(t, limit, events) && IsWalk(events, walk)
    requires e in events && id in Pending(Drained(t, events, ai, walk))
    requires id in t && t[id].fromAddress.Some? && t[id].toAddress.Some?
    ensures e.row.timestamp <= t[id].timestamp
  {
    DrainExactly(t, limit, events, ai, walk);
    if id in IdSet(events) {
      var f :| f in events && f.id == id;
      assert Bare(f.row) == Bare(t[id]);
      FilterKeeps(events, e => Complete(e), f);
    }
  }

  /**
    The query already lists the rows by age, so that sorting the tickets of a group changes nothing: they
    are shown in the order they were fetched in.
  */
  lemma GroupsAreInOrder(t: Table, limit: nat, events: seq<Stored>, orch: Address)
    requires IsBatch(t, limit, events)
    ensures Views(events, orch) == Filter(events, e => Complete(e) && e.row.toAddress == Some(orch))
  {
    assert forall i, j | 0 <= i < j < |events| :: ByTime()(events[i], events[j]);
    FilterKeepsOrder(events, SentTo(orch));
    SortLeavesSorted(Filter(events, SentTo(orch)), ByTime());
    FilterTwice(events, SentTo(orch), HasGateway(), e => Complete(e) && e.row.toAddress == Some(orch));
  }
}
