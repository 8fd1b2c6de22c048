/**
  Direct messages about stored events (reward_poller.rs, cut_change_poller.rs, the two tables of
  event_streams.rs and the history that seed.rs stores as already sent), as a state machine: the
  dispatcher works through the batch it fetched while rows are being inserted at any moment.
*/
module Dispatch {
  import opened Sequences

  type Id = string
  type User = string

  datatype Event = Event(orch: string, time: int, sent: bool)

  type Events = map<Id, Event>

  function InsertOrIgnore(t: Events, id: Id, e: Event): Events {
    if id in t then t else t[id := e]
  }

  function MarkSent(t: Events, id: Id): Events {
    if id in t then t[id := t[id].(sent := true)] else t
  }

  predicate Unsent(t: Events, id: Id) {
    id in t && !t[id].sent
  }

  /** `ids` is a batch of at most `limit` pending events, earliest first, with none earlier left out. */
  ghost predicate IsBatch(t: Events, ids: seq<Id>, limit: nat) {
    && Distinct(ids) && |ids| <= limit
    && (forall i | 0 <= i < |ids| :: Unsent(t, ids[i]))
    && (forall i, j | 0 <= i < j < |ids| :: t[ids[i]].time <= t[ids[j]].time)
    && (forall id | Unsent(t, id) && id !in ids ::
      |ids| == limit && forall i | 0 <= i < |ids| :: t[ids[i]].time <= t[id].time)
  }

  // ---- the machine ---------------------------------------------------------------------------------

  /** An event being dispatched and whom it is still to be sent to; `started` once anyone has been tried. */
  datatype Job = Job(id: Id, users: seq<User>, started: bool)

  /** `tried` is every attempted message so far, `broken` the events whose dispatch stopped after it had started. */
  datatype State = State(events: Events, queue: seq<Job>, tried: seq<(Id, User)>, broken: multiset<Id>)

  datatype Step = Insert(id: Id, event: Event) | Begin(jobs: seq<Job>) | Try | Mark | Stop

  ghost predicate ValidBatch(t: Events, jobs: seq<Job>) {
    forall i | 0 <= i < |jobs| ::
      && Unsent(t, jobs[i].id) && !jobs[i].started && Distinct(jobs[i].users)
      && forall j | i < j < |jobs| :: jobs[i].id != jobs[j].id
  }

  ghost predicate Next(s: State, step: Step, s': State) {
    match step
    case Insert(id, e) => s' == s.(events := InsertOrIgnore(s.events, id, e))
    case Begin(jobs) => s.queue == [] && ValidBatch(s.events, jobs) && s' == s.(queue := jobs)
    case Try =>
      && s.queue != [] && s.queue[0].users != []
      && s' == s.(queue := [Job(s.queue[0].id, s.queue[0].users[1..], true)] + s.queue[1..],
                  tried := s.tried + [(s.queue[0].id, s.queue[0].users[0])])
    case Mark =>
      && s.queue != [] && s.queue[0].users == []
      && s' == s.(queue := s.queue[1..], events := MarkSent(s.events, s.queue[0].id))
    case Stop =>
      && s.queue != []
      && s' == s.(queue := [], broken := if s.queue[0].started then s.broken + multiset{s.queue[0].id} else s.broken)
  }

  ghost predicate IsRun(run: seq<State>, steps: seq<Step>) {
    |run| == |steps| + 1 && forall i | 0 <= i < |steps| :: Next(run[i], steps[i], run[i + 1])
  }

  predicate Initial(s: State) {
    s.queue == [] && s.tried == [] && s.broken == multiset{}
  }

  /** The event is being dispatched and `user` has had its message. */
  predicate Served(s: State, id: Id, user: User) {
    s.queue != [] && s.queue[0].id == id && s.queue[0].started && user !in s.queue[0].users
  }

  function Attempts(s: State, id: Id, user: User): nat {
    multiset(s.tried)[(id, user)]
  }

  ghost predicate QueueOk(s: State) {
    forall i | 0 <= i < |s.queue| ::
      && Unsent(s.events, s.queue[i].id) && Distinct(s.queue[i].users) && (s.queue[i].started ==> i == 0)
      && forall j | i < j < |s.queue| :: s.queue[i].id != s.queue[j].id
  }

  /** Each message has been tried once per broken dispatch, and once more if the event is sent or the message served. */
  ghost predicate Counted(s: State, id: Id, user: User) {
    Attempts(s, id, user)
      <= s.broken[id] + if (id in s.events && s.events[id].sent) || Served(s, id, user) then 1 else 0
  }

  ghost predicate KnownOnly(s: State) {
    forall p | p in multiset(s.tried) :: p.0 in s.events
  }

  ghost predicate Inv(s: State) {
    QueueOk(s) && KnownOnly(s) && forall id, user :: Counted(s, id, user)
  }

  lemma TryKeepsCount(s: State, s': State, id: Id, user: User)
    requires QueueOk(s) && Next(s, Try, s') && Counted(s, id, user)
    ensures Counted(s', id, user)
  {
    var head := s.queue[0];
    var pair := (head.id, head.users[0]);
    assert multiset(s'.tried) == multiset(s.tried) + multiset{pair};
    assert s'.queue[0] == Job(head.id, head.users[1..], true);
    if head.id == id {
      if head.users[0] == user {
        assert user !in head.users[1..];
      } else {
        assert user in head.users <==> user in head.users[1..];
      }
    }
  }

  lemma StepKeepsCount(s: State, step: Step, s': State, id: Id, user: User)
    requires Inv(s) && Next(s, step, s')
    ensures Counted(s', id, user)
  {
    assert Counted(s, id, user);
    match step
    case Insert(_, _) =>
    case Begin(jobs) =>
      if jobs != [] {
        assert !jobs[0].started;
      }
    case Try => TryKeepsCount(s, s', id, user);
    case Mark =>
      if s'.queue != [] {
        assert s'.queue[0] == s.queue[1];
      }
    case Stop =>
  }

  lemma StepKeepsQueue(s: State, step: Step, s': State)
    requires QueueOk(s) && Next(s, step, s')
    ensures QueueOk(s')
  {
    match step
    case Insert(_, _) =>
    case Begin(_) =>
    case Try => assert forall i | 1 <= i < |s.queue| :: s'.queue[i] == s.queue[i];
    case Mark => assert forall i | 0 <= i < |s'.queue| :: s'.queue[i] == s.queue[i + 1];
    case Stop =>
  }

  lemma StepKeepsInv(s: State, step: Step, s': State)
    requires Inv(s) && Next(s, step, s')
    ensures Inv(s')
  {
    StepKeepsQueue(s, step, s');
    forall id, user ensures Counted(s', id, user) {
      StepKeepsCount(s, step, s', id, user);
    }
    if step.Try? {
      assert multiset(s'.tried) == multiset(s.tried) + multiset{(s.queue[0].id, s.queue[0].users[0])};
    }
  }

  lemma {:induction false} RunKeepsInv(run: seq<State>, steps: seq<Step>, n: nat)
    requires IsRun(run, steps) && Inv(run[0]) && n < |run|
    ensures Inv(run[n])
    decreases n
  {
    if n > 0 {
      RunKeepsInv(run, steps, n - 1);
      StepKeepsInv(run[n - 1], steps[n - 1], run[n]);
    }
  }

  /**
    However inserts, fetches, failed profile lookups and failed writes interleave, a subscriber is
    messaged about an event at most once more often than its dispatch stopped half way; so at most
    once in a run whose writes succeed.
  */
  lemma AtMostOnce(run: seq<State>, steps: seq<Step>, n: nat, id: Id, user: User)
    requires IsRun(run, steps) && Initial(run[0]) && n < |run|
    ensures Attempts(run[n], id, user) <= run[n].broken[id] + 1
    ensures run[n].broken == multiset{} ==> Attempts(run[n], id, user) <= 1
  {
    RunKeepsInv(run, steps, n);
    assert Counted(run[n], id, user);
  }

  lemma StepLeavesSent(s: State, step: Step, s': State, id: Id, user: User)
    requires QueueOk(s) && Next(s, step, s') && id in s.events && s.events[id].sent
    ensures id in s'.events && s'.events[id].sent && Attempts(s', id, user) == Attempts(s, id, user)
  {
    if step.Try? {
      assert Unsent(s.events, s.queue[0].id);
      assert multiset(s'.tried) == multiset(s.tried) + multiset{(s.queue[0].id, s.queue[0].users[0])};
    }
  }

  /** Once an event is marked sent, nobody is messaged about it again. */
  lemma {:induction false} SentIsLeftAlone(run: seq<State>, steps: seq<Step>, m: nat, n: nat, id: Id, user: User)
    requires IsRun(run, steps) && Inv(run[0]) && m <= n < |run|
    requires id in run[m].events && run[m].events[id].sent
    ensures id in run[n].events && run[n].events[id].sent
    ensures Attempts(run[n], id, user) == Attempts(run[m], id, user)
    decreases n
  {
    if m < n {
      SentIsLeftAlone(run, steps, m, n - 1, id, user);
      RunKeepsInv(run, steps, n - 1);
      StepLeavesSent(run[n - 1], steps[n - 1], run[n], id, user);
    }
  }

  /** An event first stored as already sent is never messaged to anyone. */
  lemma SeededIsNeverSent(run: seq<State>, steps: seq<Step>, m: nat, n: nat, user: User)
    requires IsRun(run, steps) && Initial(run[0]) && m < n < |run|
    requires steps[m].Insert? && steps[m].id !in run[m].events && steps[m].event.sent
    ensures Attempts(run[n], steps[m].id, user) == 0
  {
    var id := steps[m].id;
    RunKeepsInv(run, steps, m);
    assert Next(run[m], steps[m], run[m + 1]);
    assert (id, user) !in multiset(run[m].tried);
    SentIsLeftAlone(run, steps, m + 1, n, id, user);
  }

  // ---- an event is marked only after all of its users have been tried ---------------------------------

  /** While the event is queued, `user` has been tried since `base`, or is still to be. */
  predicate TriedOrQueued(s: State, id: Id, user: User, base: nat) {
    forall i | 0 <= i < |s.queue| && s.queue[i].id == id ::
      Attempts(s, id, user) + (if user in s.queue[i].users then 1 else 0) == base + 1
  }

  lemma StepKeepsTried(s: State, step: Step, s': State, id: Id, user: User, base: nat)
    requires QueueOk(s) && TriedOrQueued(s, id, user, base) && Next(s, step, s') && !step.Begin?
    ensures TriedOrQueued(s', id, user, base)
  {
    match step
    case Insert(_, _) =>
    case Try =>
      var head := s.queue[0];
      assert multiset(s'.tried) == multiset(s.tried) + multiset{(head.id, head.users[0])};
      assert head.users == [head.users[0]] + head.users[1..];
      assert forall i | 1 <= i < |s'.queue| :: s'.queue[i] == s.queue[i] && s'.queue[i].id != head.id;
      assert s'.queue[0] == Job(head.id, head.users[1..], true);
    case Mark => assert forall i | 0 <= i < |s'.queue| :: s'.queue[i] == s.queue[i + 1];
    case Stop =>
  }

  lemma {:induction false} BatchTried(run: seq<State>, steps: seq<Step>, m: nat, n: nat, k: nat, user: User)
    requires IsRun(run, steps) && Inv(run[0]) && m < n < |run|
    requires steps[m].Begin? && forall i | m < i < n :: !steps[i].Begin?
    requires k < |steps[m].jobs| && user in steps[m].jobs[k].users
    ensures TriedOrQueued(run[n], steps[m].jobs[k].id, user, Attempts(run[m], steps[m].jobs[k].id, user))
    decreases n
  {
    var jobs := steps[m].jobs;
    if n == m + 1 {
      assert Next(run[m], steps[m], run[n]);
      forall i | 0 <= i < |jobs| && i != k ensures jobs[i].id != jobs[k].id {
      }
    } else {
      BatchTried(run, steps, m, n - 1, k, user);
      RunKeepsInv(run, steps, n - 1);
      StepKeepsTried(run[n - 1], steps[n - 1], run[n], jobs[k].id, user, Attempts(run[m], jobs[k].id, user));
    }
  }

  /**
    Over every run: when an event is marked, each user it was queued for has been sent exactly one message
    since its batch was queued.
  */
  lemma MarkedMeansTried(run: seq<State>, steps: seq<Step>, m: nat, n: nat, k: nat, user: User)
    requires IsRun(run, steps) && Initial(run[0]) && m < n < |steps|
    requires steps[m].Begin? && forall i | m < i < n :: !steps[i].Begin?
    requires k < |steps[m].jobs| && user in steps[m].jobs[k].users
    requires steps[n].Mark? && run[n].queue != [] && run[n].queue[0].id == steps[m].jobs[k].id
    ensures var id := steps[m].jobs[k].id;
      && Attempts(run[n + 1], id, user) == Attempts(run[m], id, user) + 1
      && id in run[n + 1].events && run[n + 1].events[id].sent
  {
    BatchTried(run, steps, m, n, k, user);
    RunKeepsInv(run, steps, n);
    assert Next(run[n], steps[n], run[n + 1]);
    assert Unsent(run[n].events, run[n].queue[0].id);
  }

  // ---- seeding a newly watched orchestrator (cut_change_poller.rs) -----------------------------------------

  predicate HasEventsFor(t: Events, orch: string) {
    exists id :: id in t && t[id].orch == orch
  }

  datatype Fetched = Fetched(id: Id, time: int)

  function Stored(t: Events, orch: string, rows: seq<Fetched>, asSent: bool, n: nat): Events
    requires n <= |rows|
    decreases n
  {
    if n == 0 then t
    else InsertOrIgnore(Stored(t, orch, rows, asSent, n - 1), rows[n - 1].id, Event(orch, rows[n - 1].time, asSent))
  }

  /** One ingest of an orchestrator's history that stops after `n` inserts. */
  ghost function Ingest(t: Events, orch: string, rows: seq<Fetched>, n: nat): Events
    requires n <= |rows|
  {
    Stored(t, orch, rows, !HasEventsFor(t, orch), n)
  }

  lemma {:induction false} StoredRow(t: Events, orch: string, rows: seq<Fetched>, asSent: bool, n: nat, id: Id)
    requires n <= |rows|
    ensures var t' := Stored(t, orch, rows, asSent, n);
      && (id in t' <==> id in t || exists i :: 0 <= i < n && rows[i].id == id)
      && (id in t ==> t'[id] == t[id])
      && (id in t' && id !in t ==> t'[id].orch == orch && t'[id].sent == asSent)
    decreases n
  {
    if n > 0 {
      StoredRow(t, orch, rows, asSent, n - 1, id);
    }
  }

  /**
    Of the rows one ingest stores: the orchestrator and the time are as fetched, and they are stored as
    already sent exactly when the table held no event of that orchestrator.
  */
  lemma IngestExactly(t: Events, orch: string, rows: seq<Fetched>, n: nat, i: nat)
    requires i < n <= |rows| && rows[i].id !in t && forall j, k | 0 <= j < k < |rows| :: rows[j].id != rows[k].id
    ensures var t' := Ingest(t, orch, rows, n);
      && rows[i].id in t' && t'[rows[i].id].orch == orch && t'[rows[i].id].time == rows[i].time
      && (t'[rows[i].id].sent <==> forall id | id in t :: t[id].orch != orch)
  {
    var asSent := !HasEventsFor(t, orch);
    StoredRow(t, orch, rows, asSent, n, rows[i].id);
    StoredTime(t, orch, rows, asSent, n, i);
  }

  lemma {:induction false} StoredTime(t: Events, orch: string, rows: seq<Fetched>, asSent: bool, n: nat, i: nat)
    requires i < n <= |rows| && rows[i].id !in t && forall j, k | 0 <= j < k < |rows| :: rows[j].id != rows[k].id
    ensures rows[i].id in Stored(t, orch, rows, asSent, n)
    ensures Stored(t, orch, rows, asSent, n)[rows[i].id].time == rows[i].time
    decreases n
  {
    StoredRow(t, orch, rows, asSent, n - 1, rows[i].id);
    if i < n - 1 {
      StoredTime(t, orch, rows, asSent, n - 1, i);
    }
  }

  /**
    The history found when an orchestrator is first observed is kept from the subscribers exactly when
    that first ingest stored all of it or none: after one that stopped after `n` inserts and one that
    went through, what is pending is the history past the first `n` rows if `n` is not zero.
  */
  lemma SeedingSurvivesExactly(t: Events, orch: string, rows: seq<Fetched>, n: nat, i: nat)
    requires n <= |rows| && i < |rows| && !HasEventsFor(t, orch)
    requires forall j | 0 <= j < |rows| :: rows[j].id !in t
    requires forall j, k | 0 <= j < k < |rows| :: rows[j].id != rows[k].id
    ensures var t' := Ingest(Ingest(t, orch, rows, n), orch, rows, |rows|);
      Unsent(t', rows[i].id) <==> 0 < n <= i
  {
    var first := Ingest(t, orch, rows, n);
    StoredRow(t, orch, rows, true, n, rows[i].id);
    if n == 0 {
      assert first == t;
    } else {
      StoredRow(t, orch, rows, true, n, rows[0].id);
      assert HasEventsFor(first, orch);
    }
    StoredRow(first, orch, rows, !HasEventsFor(first, orch), |rows|, rows[i].id);
  }

  // ---- which later change is announced ---------------------------------------------------------------------

  /** One look at an orchestrator's history: the rows it lists, of which the first `n` are inserted. */
  datatype Visit = Visit(rows: seq<Fetched>, n: nat)

  ghost predicate ValidVisits(visits: seq<Visit>) {
    forall m | 0 <= m < |visits| :: visits[m].n <= |visits[m].rows|
  }

  /** After the first `m` looks. */
  ghost function Visited(t: Events, orch: string, visits: seq<Visit>, m: nat): Events
    requires ValidVisits(visits) && m <= |visits|
    decreases m
  {
    if m == 0 then t else Ingest(Visited(t, orch, visits, m - 1), orch, visits[m - 1].rows, visits[m - 1].n)
  }

  /** Some row is inserted by the first `m` looks. */
  predicate FoundBy(visits: seq<Visit>, m: nat)
    requires m <= |visits|
  {
    exists k | 0 <= k < m :: visits[k].n > 0
  }

  /** Every listed id that is in the table already belongs to the orchestrator. */
  ghost predicate OwnIds(t: Events, orch: string, visits: seq<Visit>) {
    forall m, i | 0 <= m < |visits| && 0 <= i < |visits[m].rows| ::
      visits[m].rows[i].id in t ==> t[visits[m].rows[i].id].orch == orch
  }

  lemma {:induction false} VisitedHas(t: Events, orch: string, visits: seq<Visit>, m: nat)
    requires ValidVisits(visits) && m <= |visits| && OwnIds(t, orch, visits)
    ensures OwnIds(Visited(t, orch, visits, m), orch, visits)
    ensures HasEventsFor(Visited(t, orch, visits, m), orch) <==> HasEventsFor(t, orch) || FoundBy(visits, m)
    decreases m
  {
    if m > 0 {
      VisitedHas(t, orch, visits, m - 1);
      IngestHas(Visited(t, orch, visits, m - 1), orch, visits, m - 1);
    }
  }

  lemma IngestHas(t: Events, orch: string, visits: seq<Visit>, m: nat)
    requires ValidVisits(visits) && m < |visits| && OwnIds(t, orch, visits)
    ensures var t' := Ingest(t, orch, visits[m].rows, visits[m].n);
      OwnIds(t', orch, visits) && (HasEventsFor(t', orch) <==> HasEventsFor(t, orch) || visits[m].n > 0)
  {
    var rows, n := visits[m].rows, visits[m].n;
    var asSent := !HasEventsFor(t, orch);
    var t' := Ingest(t, orch, rows, n);
    forall id ensures id in t ==> id in t' && t'[id] == t[id]
      ensures id in t' && id !in t ==> n > 0 && t'[id].orch == orch
    {
      StoredRow(t, orch, rows, asSent, n, id);
    }
    if n > 0 {
      StoredRow(t, orch, rows, asSent, n, rows[0].id);
      assert rows[0].id in t' && t'[rows[0].id].orch == orch;
    }
  }

  /**
    Over every sequence of looks at an orchestrator, complete or cut short: a change stored for the first
    time is left to be announced exactly when an earlier look had stored something. In particular the first
    change of an orchestrator whose history was empty so far is stored as sent, and nobody is told.
  */
  lemma AnnouncedExactly(t: Events, orch: string, visits: seq<Visit>, m: nat, i: nat)
    requires ValidVisits(visits) && m < |visits| && OwnIds(t, orch, visits) && !HasEventsFor(t, orch)
    requires i < visits[m].n && visits[m].rows[i].id !in Visited(t, orch, visits, m)
    ensures Unsent(Visited(t, orch, visits, m + 1), visits[m].rows[i].id) <==> FoundBy(visits, m)
  {
    var before, rows := Visited(t, orch, visits, m), visits[m].rows;
    VisitedHas(t, orch, visits, m);
    StoredRow(before, orch, rows, !HasEventsFor(before, orch), visits[m].n, rows[i].id);
  }

  /** A first look that finds nothing, and the first change: it is stored as sent. */
  lemma FirstChangeIsSilent(t: Events, orch: string, change: Fetched)
    requires change.id !in t && !HasEventsFor(t, orch)
    ensures var visits := [Visit([], 0), Visit([change], 1)];
      change.id in Visited(t, orch, visits, 2) && !Unsent(Visited(t, orch, visits, 2), change.id)
  {
    var visits := [Visit([], 0), Visit([change], 1)];
    assert Visited(t, orch, visits, 1) == t;
    AnnouncedExactly(t, orch, visits, 1, 0);
    StoredRow(t, orch, [change], true, 1, change.id);
  }
}
