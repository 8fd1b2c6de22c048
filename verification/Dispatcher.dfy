/** The dispatch loop as the program runs it, shown to be a run of the machine in `Dispatch`. */
module Dispatcher {
  import opened Sequences
  import opened Dispatch

  /** Whom a message about an event goes to: the listed subscribers whose user id is a number, from the `j`-th on. */
  function Numeric(subs: seq<User>, isNumber: User -> bool, j: nat): seq<User>
    requires j <= |subs|
    decreases |subs| - j
  {
    if j == |subs| then []
    else if isNumber(subs[j]) then [subs[j]] + Numeric(subs, isNumber, j + 1)
    else Numeric(subs, isNumber, j + 1)
  }

  lemma {:induction false} NumericIsDistinct(subs: seq<User>, isNumber: User -> bool, j: nat)
    requires j <= |subs| && Distinct(subs)
    ensures Distinct(Numeric(subs, isNumber, j))
    ensures forall u | u in Numeric(subs, isNumber, j) :: exists k :: j <= k < |subs| && subs[k] == u
    decreases |subs| - j
  {
    if j < |subs| {
      NumericIsDistinct(subs, isNumber, j + 1);
      assert subs[j] !in Numeric(subs, isNumber, j + 1);
    }
  }

  /** `at` is every position from `j` on that holds a number, in order. */
  ghost predicate Picks(subs: seq<User>, isNumber: User -> bool, j: nat, at: seq<nat>) {
    && (forall k | 0 <= k < |at| :: j <= at[k] < |subs| && isNumber(subs[at[k]]))
    && (forall k, l | 0 <= k < l < |at| :: at[k] < at[l])
    && (forall i | j <= i < |subs| && isNumber(subs[i]) :: i in at)
  }

  lemma PickFirst(subs: seq<User>, isNumber: User -> bool, j: nat, rest: seq<nat>)
    requires j < |subs| && Picks(subs, isNumber, j + 1, rest) && isNumber(subs[j])
    ensures Picks(subs, isNumber, j, [j] + rest)
  {
    var at := [j] + rest;
    assert at[0] == j && forall k | 1 <= k < |at| :: at[k] == rest[k - 1];
    forall i | j <= i < |subs| && isNumber(subs[i]) ensures i in at {
      if i == j {
        assert at[0] == i;
      } else {
        var k :| 0 <= k < |rest| && rest[k] == i;
        assert at[k + 1] == i;
      }
    }
  }

  lemma PickSkips(subs: seq<User>, isNumber: User -> bool, j: nat, rest: seq<nat>)
    requires j < |subs| && Picks(subs, isNumber, j + 1, rest) && !isNumber(subs[j])
    ensures Picks(subs, isNumber, j, rest)
  {
  }

  /** The subscribers at these positions, in their order. */
  function At(subs: seq<User>, at: seq<nat>): seq<User>
    requires forall k | 0 <= k < |at| :: at[k] < |subs|
  {
    if at == [] then [] else [subs[at[0]]] + At(subs, at[1..])
  }

  lemma AtFirst(subs: seq<User>, j: nat, rest: seq<nat>)
    requires j < |subs| && forall k | 0 <= k < |rest| :: rest[k] < |subs|
    ensures At(subs, [j] + rest) == [subs[j]] + At(subs, rest)
  {
    assert ([j] + rest)[1..] == rest;
  }

  /** The positions from `j` on that hold a number. */
  function Positions(subs: seq<User>, isNumber: User -> bool, j: nat): seq<nat>
    requires j <= |subs|
    decreases |subs| - j
  {
    if j == |subs| then []
    else if isNumber(subs[j]) then [j] + Positions(subs, isNumber, j + 1)
    else Positions(subs, isNumber, j + 1)
  }

  lemma {:induction false} PositionsPick(subs: seq<User>, isNumber: User -> bool, j: nat)
    requires j <= |subs|
    ensures Picks(subs, isNumber, j, Positions(subs, isNumber, j))
    decreases |subs| - j
  {
    if j < |subs| {
      PositionsPick(subs, isNumber, j + 1);
      if isNumber(subs[j]) {
        PickFirst(subs, isNumber, j, Positions(subs, isNumber, j + 1));
      } else {
        PickSkips(subs, isNumber, j, Positions(subs, isNumber, j + 1));
      }
    }
  }

  /** A message goes to the subscribers at exactly the positions that hold a number, in that order. */
  lemma {:induction false} NumericExactly(subs: seq<User>, isNumber: User -> bool, j: nat)
    requires j <= |subs|
    ensures Picks(subs, isNumber, j, Positions(subs, isNumber, j))
    ensures Numeric(subs, isNumber, j) == At(subs, Positions(subs, isNumber, j))
    decreases |subs| - j
  {
    PositionsPick(subs, isNumber, j);
    if j < |subs| {
      NumericExactly(subs, isNumber, j + 1);
      var rest := Positions(subs, isNumber, j + 1);
      if isNumber(subs[j]) {
        assert Positions(subs, isNumber, j) == [j] + rest;
        AtFirst(subs, j, rest);
      } else {
        assert Positions(subs, isNumber, j) == rest;
      }
    }
  }

  lemma CountFirst(x: User, s: seq<User>, u: User)
    ensures multiset([x] + s)[u] == multiset(s)[u] + if x == u then 1 else 0
  {
  }

  /** So a subscriber is messaged exactly if listed and a number, and as often as listed. */
  lemma {:induction false} NumericCounts(subs: seq<User>, isNumber: User -> bool, j: nat, u: User)
    requires j <= |subs|
    ensures multiset(Numeric(subs, isNumber, j))[u] == if isNumber(u) then multiset(subs[j..])[u] else 0
    decreases |subs| - j
  {
    if j < |subs| {
      NumericCounts(subs, isNumber, j + 1, u);
      CountFirst(subs[j], subs[j + 1..], u);
      assert subs[j..] == [subs[j]] + subs[j + 1..];
      if isNumber(subs[j]) {
        CountFirst(subs[j], Numeric(subs, isNumber, j + 1), u);
      }
    }
  }

  /** What the subscriptions, the explorer and the network answer during one batch. */
  datatype View = View(subscribers: string -> seq<User>, isNumber: User -> bool, profile: string -> bool)

  ghost predicate ValidView(v: View) {
    forall orch :: Distinct(v.subscribers(orch))
  }

  function Users(t: Events, v: View, id: Id): seq<User> {
    if id in t then Numeric(v.subscribers(t[id].orch), v.isNumber, 0) else []
  }

  function MarkFirst(t: Events, batch: seq<Id>, n: nat): Events
    requires n <= |batch|
    decreases n
  {
    if n == 0 then t else MarkSent(MarkFirst(t, batch, n - 1), batch[n - 1])
  }

  function PairsFor(id: Id, users: seq<User>): seq<(Id, User)> {
    if users == [] then [] else PairsFor(id, users[..|users| - 1]) + [(id, users[|users| - 1])]
  }

  /** The messages the first `n` events of a batch call for. */
  function Messages(t: Events, v: View, batch: seq<Id>, n: nat): seq<(Id, User)>
    requires n <= |batch|
    decreases n
  {
    if n == 0 then [] else Messages(t, v, batch, n - 1) + PairsFor(batch[n - 1], Users(t, v, batch[n - 1]))
  }

  lemma {:induction false} PairsCount(id: Id, users: seq<User>, i: Id, u: User)
    ensures multiset(PairsFor(id, users))[(i, u)] == if i == id then multiset(users)[u] else 0
  {
    if users != [] {
      PairsCount(id, users[..|users| - 1], i, u);
      assert users == users[..|users| - 1] + [users[|users| - 1]];
    }
  }

  /** `u` is listed for the orchestrator of event `id` and is a number. */
  predicate Concerned(t: Events, v: View, id: Id, u: User) {
    id in t && u in v.subscribers(t[id].orch) && v.isNumber(u)
  }

  lemma UsersCount(t: Events, v: View, id: Id, u: User)
    requires ValidView(v)
    ensures multiset(Users(t, v, id))[u] == if Concerned(t, v, id, u) then 1 else 0
  {
    if id in t {
      var subs := v.subscribers(t[id].orch);
      NumericCounts(subs, v.isNumber, 0, u);
      DistinctOnce(subs, u);
      assert subs[0..] == subs;
    }
  }

  lemma CountBoth(a: seq<(Id, User)>, b: seq<(Id, User)>, p: (Id, User))
    ensures multiset(a + b)[p] == multiset(a)[p] + multiset(b)[p]
  {
  }

  lemma InFirst(batch: seq<Id>, n: nat, id: Id)
    requires 0 < n <= |batch| && Distinct(batch)
    ensures id in batch[..n] <==> id in batch[..n - 1] || id == batch[n - 1]
    ensures !(id in batch[..n - 1] && id == batch[n - 1])
  {
    assert batch[..n] == batch[..n - 1] + [batch[n - 1]];
  }

  /** The first `n` events call for one message to each of those concerned, and to nobody else. */
  lemma {:induction false} MessagesExactly(t: Events, v: View, batch: seq<Id>, n: nat, id: Id, u: User)
    requires n <= |batch| && Distinct(batch) && ValidView(v)
    ensures multiset(Messages(t, v, batch, n))[(id, u)] == if id in batch[..n] && Concerned(t, v, id, u) then 1 else 0
    decreases n
  {
    if n > 0 {
      MessagesExactly(t, v, batch, n - 1, id, u);
      PairsCount(batch[n - 1], Users(t, v, batch[n - 1]), id, u);
      UsersCount(t, v, id, u);
      CountBoth(Messages(t, v, batch, n - 1), PairsFor(batch[n - 1], Users(t, v, batch[n - 1])), (id, u));
      InFirst(batch, n, id);
    }
  }

  /** The first `n` events of a batch are marked as sent, and nothing else changes. */
  lemma {:induction false} MarkFirstExactly(t: Events, batch: seq<Id>, n: nat, id: Id)
    requires n <= |batch|
    ensures var t' := MarkFirst(t, batch, n);
      && (id in t' <==> id in t)
      && (id in t ==> t'[id] == t[id].(sent := t[id].sent || id in batch[..n]))
    decreases n
  {
    if n > 0 {
      MarkFirstExactly(t, batch, n - 1, id);
      assert batch[..n] == batch[..n - 1] + [batch[n - 1]];
    }
  }

  // ---- earliest first ------------------------------------------------------------------------------

  lemma PrefixHolds(batch: seq<Id>, n: nat, k: nat)
    requires k < n <= |batch|
    ensures batch[k] in batch[..n]
  {
    assert batch[..n][k] == batch[k];
  }

  /** However far the work on a batch has come, no event left pending is earlier than one it has marked. */
  lemma EarliestFirst(t: Events, batch: seq<Id>, limit: nat, n: nat, i: nat, id: Id)
    requires IsBatch(t, batch, limit) && i < n <= |batch| && Unsent(MarkFirst(t, batch, n), id)
    ensures id in t && t[batch[i]].time <= t[id].time
  {
    MarkFirstExactly(t, batch, n, id);
    if id in batch {
      var k: nat :| k < |batch| && batch[k] == id;
      if k < n {
        PrefixHolds(batch, n, k);
      }
    }
  }

  function Pending(t: Events): set<Id> {
    set id | id in t && !t[id].sent
  }

  function Members(batch: seq<Id>): set<Id> {
    set id | id in batch
  }

  lemma {:induction false} MembersCount(batch: seq<Id>)
    requires Distinct(batch)
    ensures |Members(batch)| == |batch|
  {
    if batch != [] {
      var init, last := batch[..|batch| - 1], batch[|batch| - 1];
      MembersCount(init);
      assert batch == init + [last];
      assert Members(batch) == Members(init) + {last};
    }
  }

  lemma WholeBatchMarked(t: Events, batch: seq<Id>, limit: nat)
    requires IsBatch(t, batch, limit)
    ensures Members(batch) <= Pending(t) && Pending(MarkFirst(t, batch, |batch|)) == Pending(t) - Members(batch)
    ensures |batch| < limit ==> Members(batch) == Pending(t)
  {
    forall id ensures id in Pending(MarkFirst(t, batch, |batch|)) <==> id in Pending(t) && id !in batch {
      MarkFirstExactly(t, batch, |batch|, id);
      assert batch[..|batch|] == batch;
    }
    assert forall id | id in batch :: Unsent(t, id);
    forall id | id in Pending(t) && id !in batch ensures |batch| == limit {
      assert Unsent(t, id);
    }
  }

  /** A batch worked through takes as many events off the backlog as the limit allows. */
  lemma BacklogFalls(t: Events, batch: seq<Id>, limit: nat)
    requires IsBatch(t, batch, limit)
    ensures |Pending(MarkFirst(t, batch, |batch|))| == if |Pending(t)| <= limit then 0 else |Pending(t)| - limit
  {
    MembersCount(batch);
    WholeBatchMarked(t, batch, limit);
    assert |Pending(t) - Members(batch)| == |Pending(t)| - |Members(batch)|;
  }

  /** The jobs of a batch from the `n`-th on. */
  function JobsFrom(t: Events, v: View, batch: seq<Id>, n: nat): seq<Job>
    requires n <= |batch|
    decreases |batch| - n
  {
    if n == |batch| then [] else [Job(batch[n], Users(t, v, batch[n]), false)] + JobsFrom(t, v, batch, n + 1)
  }

  lemma {:induction false} JobsFromAt(t: Events, v: View, batch: seq<Id>, n: nat)
    requires n <= |batch|
    ensures |JobsFrom(t, v, batch, n)| == |batch| - n
    ensures forall i | 0 <= i < |batch| - n ::
      JobsFrom(t, v, batch, n)[i] == Job(batch[n + i], Users(t, v, batch[n + i]), false)
    decreases |batch| - n
  {
    if n < |batch| {
      JobsFromAt(t, v, batch, n + 1);
    }
  }

  lemma BatchIsValid(t: Events, v: View, batch: seq<Id>, limit: nat)
    requires IsBatch(t, batch, limit) && ValidView(v)
    ensures ValidBatch(t, JobsFrom(t, v, batch, 0))
  {
    JobsFromAt(t, v, batch, 0);
    forall i | 0 <= i < |batch| ensures Distinct(Users(t, v, batch[i])) {
      NumericIsDistinct(v.subscribers(t[batch[i]].orch), v.isNumber, 0);
    }
  }

  lemma {:induction false} MarkFirstKeeps(t: Events, batch: seq<Id>, n: nat, id: Id)
    requires n <= |batch| && id !in batch[..n]
    ensures id in MarkFirst(t, batch, n) <==> id in t
    ensures id in t ==> MarkFirst(t, batch, n)[id] == t[id]
    decreases n
  {
    if n > 0 {
      assert batch[n - 1] in batch[..n];
      forall x | x in batch[..n - 1] ensures x in batch[..n] {
      }
      MarkFirstKeeps(t, batch, n - 1, id);
    }
  }

  class DmDispatcher {
    var events: Events
    ghost var run: seq<State>
    ghost var steps: seq<Step>

    ghost predicate Valid()
      reads this
    {
      IsRun(run, steps) && Initial(run[0]) && Now().events == events
    }

    ghost function Now(): State
      reads this
      requires |run| > 0
    {
      run[|run| - 1]
    }

    constructor ()
      ensures Valid() && Now() == State(map[], [], [], multiset{})
    {
      events := map[];
      run, steps := [State(map[], [], [], multiset{})], [];
    }

    ghost method Record(step: Step, s: State)
      requires IsRun(run, steps) && Initial(run[0]) && Next(Now(), step, s)
      modifies this`run, this`steps
      ensures IsRun(run, steps) && Initial(run[0]) && Now() == s
    {
      run, steps := run + [s], steps + [step];
    }

    /** Ingest or seeding stores a row unless its id is known. */
    method Store(id: Id, e: Event)
      requires Valid()
      modifies this
      ensures Valid() && events == InsertOrIgnore(old(events), id, e) && Now() == old(Now()).(events := events)
    {
      if id !in events {
        events := events[id := e];
      }
      Record(Step.Insert(id, e), Now().(events := events));
    }

    /**
      Message the users of the event at the head of the queue; false if a
      write fails, after `budget` of them went through.
    */
    method SendAll(id: Id, subs: seq<User>, isNumber: User -> bool, budget: nat) returns (ok: bool, left: nat)
      requires Valid() && Now().queue != [] && Now().queue[0] == Job(id, Numeric(subs, isNumber, 0), false)
      modifies this
      ensures Valid() && events == old(events) && Now().broken == old(Now().broken)
      ensures Now().queue != [] && Now().queue[0].id == id && Now().queue[1..] == old(Now().queue)[1..]
      ensures left <= budget && (ok ==> Now().queue[0].users == [] && left >= budget - |subs|)
      ensures exists sent ::
        && sent + Now().queue[0].users == Numeric(subs, isNumber, 0)
        && Now().tried == old(Now().tried) + PairsFor(id, sent)
      ensures !ok ==> budget < |subs|
    {
      left := budget;
      ghost var rest, s0 := Now().queue[1..], Now();
      ghost var sent := [];
      for j := 0 to |subs|
        invariant Valid() && events == old(events) && left <= budget && left >= budget - j
        invariant Now().queue != [] && Now().queue[0].id == id && Now().queue[0].users == Numeric(subs, isNumber, j)
        invariant Now().queue[1..] == rest && Now().broken == s0.broken
        invariant sent + Numeric(subs, isNumber, j) == Numeric(subs, isNumber, 0)
        invariant Now().tried == s0.tried + PairsFor(id, sent)
      {
        if !isNumber(subs[j]) {
          continue;
        }
        if left == 0 {
          assert sent + Now().queue[0].users == Numeric(subs, isNumber, 0);
          return false, 0;
        }
        left := left - 1;
        ghost var s := Now();
        Record(Try, s.(
          queue := [Job(id, s.queue[0].users[1..], true)] + s.queue[1..],
          tried := s.tried + [(id, s.queue[0].users[0])]));
        ghost var sent' := sent + [subs[j]];
        assert sent'[..|sent|] == sent;
        sent := sent';
      }
      assert sent + [] == sent;
      ok := true;
    }

    /** The messages of the first `done` events, and of the next one a first part, have been tried since `before`. */
    ghost predicate TriedUpTo(before: seq<(Id, User)>, t: Events, v: View, batch: seq<Id>, done: nat, sent: seq<User>)
      reads this
      requires |run| > 0 && done <= |batch|
    {
      && Now().tried
        == before + Messages(t, v, batch, done) + (if done < |batch| then PairsFor(batch[done], sent) else [])
      && (done < |batch| ==> sent <= Users(t, v, batch[done]))
    }

    /**
      One event: nothing if it has no subscribers but the mark, nothing at all if its profile cannot be
      fetched, and a stop at the first failed write otherwise.
    */
    method DispatchOne(id: Id, v: View, budget: nat) returns (ok: bool, left: nat, ghost sent: seq<User>)
      requires Valid() && id in events && Now().queue != [] && Now().queue[0] == Job(id, Users(events, v, id), false)
      modifies this
      ensures Valid() && left <= budget && sent <= Users(old(events), v, id)
      ensures Now().tried == old(Now().tried) + PairsFor(id, sent)
      ensures ok ==> sent == Users(old(events), v, id) && events == MarkSent(old(events), id)
      ensures ok ==> Now().queue == old(Now().queue)[1..] && Now().broken == old(Now().broken)
      ensures !ok ==> Now().queue == [] && events == old(events)
      ensures !ok ==> !v.profile(events[id].orch) || budget <= |v.subscribers(events[id].orch)|
    {
      ghost var s0 := Now();
      var subs := v.subscribers(events[id].orch);
      ok, left, sent := true, budget, [];
      if subs != [] {
        if !v.profile(events[id].orch) {
          Record(Stop, s0.(queue := []));
          return false, budget, [];
        }
        ok, left := SendAll(id, subs, v.isNumber, budget);
        sent :| sent + Now().queue[0].users == Numeric(subs, v.isNumber, 0)
          && Now().tried == s0.tried + PairsFor(id, sent);
      }
      if !ok || left == 0 {
        ghost var s := Now();
        Record(Stop, s.(queue := [], broken := if s.queue[0].started then s.broken + multiset{id} else s.broken));
        return false, left, sent;
      }
      left := left - 1;
      events := events[id := events[id].(sent := true)];
      ghost var s := Now();
      assert sent + [] == sent;
      Record(Mark, s.(queue := s.queue[1..], events := MarkSent(s.events, id)));
    }

    /** The loop over a batch that has been queued. */
    method WorkThrough(batch: seq<Id>, v: View, budget: nat) returns (ok: bool, done: nat, ghost sent: seq<User>)
      requires Valid() && Now().queue == JobsFrom(events, v, batch, 0)
      requires Distinct(batch) && forall i | 0 <= i < |batch| :: batch[i] in events
      modifies this
      ensures Valid() && Now().queue == [] && done <= |batch|
      ensures events == MarkFirst(old(events), batch, done)
      ensures TriedUpTo(old(Now().tried), old(events), v, batch, done, sent)
      ensures ok <==> done == |batch|
      ensures ok ==> Now().broken == old(Now().broken)
    {
      ghost var t, before, broken := events, Now().tried, Now().broken;
      var left := budget;
      done, sent := 0, [];
      while done < |batch|
        invariant Valid() && done <= |batch| && Now().queue == JobsFrom(t, v, batch, done)
        invariant events == MarkFirst(t, batch, done) && Now().broken == broken
        invariant Now().tried == before + Messages(t, v, batch, done)
      {
        MarkFirstKeeps(t, batch, done, batch[done]);
        ok, left, sent := DispatchOne(batch[done], v, left);
        if !ok {
          return;
        }
        OneMoreSent(before, t, v, batch, done);
        done := done + 1;
      }
      ok := true;
      sent := [];
      assert before + Messages(t, v, batch, done) + [] == before + Messages(t, v, batch, done);
    }

    /** One batch, earliest event first. */
    method DispatchBatch(batch: seq<Id>, limit: nat, v: View, budget: nat)
      returns (ok: bool, done: nat, ghost sent: seq<User>)
      requires Valid() && Now().queue == [] && IsBatch(events, batch, limit) && ValidView(v)
      modifies this
      ensures Valid() && Now().queue == [] && done <= |batch|
      ensures events == MarkFirst(old(events), batch, done)
      ensures TriedUpTo(old(Now().tried), old(events), v, batch, done, sent)
      ensures ok <==> done == |batch|
      ensures ok ==> Now().broken == old(Now().broken)
      ensures forall id | id in events ::
        id in old(events) && (events[id].sent <==> old(events)[id].sent || id in batch[..done])
      ensures ok ==> forall id, u ::
        multiset(Now().tried)[(id, u)]
          == multiset(old(Now().tried))[(id, u)] + if id in batch && Concerned(old(events), v, id, u) then 1 else 0
    {
      ghost var t, before := events, Now().tried;
      BatchIsValid(events, v, batch, limit);
      Record(Begin(JobsFrom(events, v, batch, 0)), Now().(queue := JobsFrom(events, v, batch, 0)));
      ok, done, sent := WorkThrough(batch, v, budget);
      forall id | id in events ensures id in t && (events[id].sent <==> t[id].sent || id in batch[..done]) {
        MarkFirstExactly(t, batch, done, id);
      }
      if ok {
        AllTried(before, t, v, batch);
        assert Now().tried == before + Messages(t, v, batch, |batch|);
      }
    }
  }

  lemma OneMoreSent(before: seq<(Id, User)>, t: Events, v: View, batch: seq<Id>, n: nat)
    requires n < |batch|
    ensures before + Messages(t, v, batch, n) + PairsFor(batch[n], Users(t, v, batch[n]))
      == before + Messages(t, v, batch, n + 1)
    ensures JobsFrom(t, v, batch, n)[1..] == JobsFrom(t, v, batch, n + 1)
  {
  }

  /** A batch that was worked through has messaged exactly those concerned, once for each of its events. */
  lemma AllTried(before: seq<(Id, User)>, t: Events, v: View, batch: seq<Id>)
    requires Distinct(batch) && ValidView(v)
    ensures forall id, u ::
      multiset(before + Messages(t, v, batch, |batch|))[(id, u)]
        == multiset(before)[(id, u)] + if id in batch && Concerned(t, v, id, u) then 1 else 0
  {
    forall id, u
      ensures multiset(before + Messages(t, v, batch, |batch|))[(id, u)]
        == multiset(before)[(id, u)] + if id in batch && Concerned(t, v, id, u) then 1 else 0
    {
      MessagesExactly(t, v, batch, |batch|, id, u);
      assert batch[..|batch|] == batch;
    }
  }
}
