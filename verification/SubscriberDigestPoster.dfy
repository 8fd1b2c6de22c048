/**
  One run of the subscriber digest (subscriber_digest_poster.rs): a hash map of groups, a message for
  each group that has subscribers, and the mark on the whole batch at the very end.
*/
module SubscriberDigestPoster {
  import opened Sequences
  import opened Sorting
  import opened DelegatorDigest

  function For(orch: Address): Arrival -> bool {
    (p: Arrival) => p.event.orch == orch
  }

  datatype Message = Message(orch: Address, digest: Digest)

  /** The message a group gives rise to, if any. */
  function MessagesFor(t: Events, pending: seq<Arrival>, subscribed: Address -> bool, orch: Address): seq<Message> {
    var d := DigestOf(t, Filter(pending, For(orch)));
    if subscribed(orch) && !IsEmpty(d) then [Message(orch, d)] else []
  }

  /** The messages of the groups in the order of `walk`. */
  function Messages(t: Events, pending: seq<Arrival>, subscribed: Address -> bool, walk: seq<Address>): seq<Message> {
    if walk == [] then []
    else Messages(t, pending, subscribed, walk[..|walk| - 1]) + MessagesFor(t, pending, subscribed, walk[|walk| - 1])
  }

  function AllShown(messages: seq<Message>): multiset<Arrival> {
    if messages == [] then multiset{} else AllShown(messages[..|messages| - 1]) + Shown(messages[|messages| - 1].digest)
  }

  lemma AllShownSnoc(messages: seq<Message>, more: seq<Message>)
    requires |more| <= 1
    ensures AllShown(messages + more) == AllShown(messages) + if more == [] then multiset{} else Shown(more[0].digest)
  {
    if more == [] {
      assert messages + more == messages;
    } else {
      assert (messages + more)[..|messages|] == messages;
    }
  }

  predicate IsShown(subscribed: Address -> bool, walk: seq<Address>, p: Arrival) {
    p.event.orch in walk && subscribed(p.event.orch) && !p.event.kind.Other?
  }

  lemma GroupShows(t: Events, pending: seq<Arrival>, subscribed: Address -> bool, orch: Address, p: Arrival)
    ensures var more := MessagesFor(t, pending, subscribed, orch);
      (if more == [] then 0 else Shown(more[0].digest)[p])
        == if p.event.orch == orch && subscribed(orch) && !p.event.kind.Other? then multiset(pending)[p] else 0
  {
    var group := Filter(pending, For(orch));
    ListsPartition(t, group, p);
    FilterCount(pending, For(orch), p);
    if IsEmpty(DigestOf(t, group)) {
      assert Shown(DigestOf(t, group)) == multiset{};
    }
  }

  /**
    Each pending event of a visited orchestrator with subscribers is shown once, in one message; nothing else is shown.
  */
  lemma {:induction false} EachIsShownOnce(t: Events, pending: seq<Arrival>, subscribed: Address -> bool,
                                           walk: seq<Address>, p: Arrival)
    requires Distinct(walk)
    ensures AllShown(Messages(t, pending, subscribed, walk))[p]
      == if IsShown(subscribed, walk, p) then multiset(pending)[p] else 0
    decreases |walk|
  {
    if walk != [] {
      var init, last := walk[..|walk| - 1], walk[|walk| - 1];
      assert forall x :: x in walk <==> x in init || x == last;
      EachIsShownOnce(t, pending, subscribed, init, p);
      GroupShows(t, pending, subscribed, last, p);
      AllShownSnoc(Messages(t, pending, subscribed, init), MessagesFor(t, pending, subscribed, last));
    }
  }

  /** The message is to subscribers of its orchestrator, not empty, and shows exactly what is pending about it. */
  ghost predicate IsAboutItsOrchestrator(pending: seq<Arrival>, subscribed: Address -> bool, m: Message) {
    && subscribed(m.orch) && !IsEmpty(m.digest)
    && forall p ::
      Shown(m.digest)[p] == if p.event.orch == m.orch && !p.event.kind.Other? then multiset(pending)[p] else 0
  }

  lemma {:induction false} MessagesAreAboutTheirOrchestrator(t: Events, pending: seq<Arrival>,
                                                             subscribed: Address -> bool, walk: seq<Address>,
                                                             m: Message)
    requires m in Messages(t, pending, subscribed, walk)
    ensures m.orch in walk && IsAboutItsOrchestrator(pending, subscribed, m)
    decreases |walk|
  {
    var init, last := walk[..|walk| - 1], walk[|walk| - 1];
    if m in Messages(t, pending, subscribed, init) {
      MessagesAreAboutTheirOrchestrator(t, pending, subscribed, init, m);
    } else {
      assert m in MessagesFor(t, pending, subscribed, last);
      forall p {
        GroupShows(t, pending, subscribed, last, p);
      }
      assert MessagesFor(t, pending, subscribed, last)[0] == m;
    }
  }

  // ---- runs of ticks and inserts -----------------------------------------------------------------------

  datatype Step =
    | Insert(id: Id, event: Event)
    | Tick(pending: seq<Arrival>, subscribed: Address -> bool, walk: seq<Address>, ok: bool)

  /**
    `told` is every event as often as it was shown, `aborted` as often as it was shown by a tick that did not finish.
  */
  datatype State = State(events: Events, sent: set<Id>, told: multiset<Arrival>, aborted: multiset<Arrival>)

  function Ids(pending: seq<Arrival>): set<Id> {
    set p | p in pending :: p.id
  }

  ghost predicate IsPending(s: State, pending: seq<Arrival>) {
    && Distinct(pending)
    && forall p | p in pending :: p.id in s.events && s.events[p.id] == p.event && p.id !in s.sent
  }

  ghost predicate Next(s: State, step: Step, s': State) {
    match step
    case Insert(id, e) => s' == s.(events := if id in s.events then s.events else s.events[id := e])
    case Tick(pending, subscribed, walk, ok) =>
      var shown := AllShown(Messages(s.events, pending, subscribed, walk));
      && IsPending(s, pending) && Distinct(walk) && (ok ==> forall p | p in pending :: p.event.orch in walk)
      && s' == State(s.events, if ok then s.sent + Ids(pending) else s.sent,
        s.told + shown, if ok then s.aborted else s.aborted + shown)
  }

  ghost predicate IsRun(run: seq<State>, steps: seq<Step>) {
    |run| == |steps| + 1 && forall i | 0 <= i < |steps| :: Next(run[i], steps[i], run[i + 1])
  }

  predicate Counted(s: State, p: Arrival) {
    s.told[p] <= s.aborted[p] + if p.id in s.sent then 1 else 0
  }

  lemma StepKeepsCount(s: State, step: Step, s': State, p: Arrival)
    requires Next(s, step, s') && Counted(s, p)
    ensures Counted(s', p)
  {
    if step.Tick? {
      EachIsShownOnce(s.events, step.pending, step.subscribed, step.walk, p);
      DistinctOnce(step.pending, p);
    }
  }

  /** An event is shown at most once more often than a tick was abandoned after showing it. */
  lemma {:induction false} ShownAtMostOnce(run: seq<State>, steps: seq<Step>, n: nat, p: Arrival)
    requires IsRun(run, steps) && n < |run| && run[0].told == multiset{}
    ensures run[n].told[p] <= run[n].aborted[p] + 1 && Counted(run[n], p)
    decreases n
  {
    if n > 0 {
      ShownAtMostOnce(run, steps, n - 1, p);
      StepKeepsCount(run[n - 1], steps[n - 1], run[n], p);
    }
  }

  /** A tick that finishes has shown what it marks, once, if its orchestrator has subscribers. */
  lemma TickShows(s: State, step: Step, s': State, p: Arrival)
    requires Next(s, step, s') && step.Tick? && step.ok && p in step.pending
    ensures s'.told[p] == s.told[p] + if step.subscribed(p.event.orch) && p.event.kind != Kind.Other then 1 else 0
    ensures p.id !in s.sent && p.id in s'.sent && s'.aborted == s.aborted
  {
    EachIsShownOnce(s.events, step.pending, step.subscribed, step.walk, p);
    DistinctOnce(step.pending, p);
  }

  /** Tick `i` finished, with event `id` in its batch. */
  ghost predicate FinishedBy(steps: seq<Step>, i: nat, id: Id) {
    i < |steps| && steps[i].Tick? && steps[i].ok && exists p :: p in steps[i].pending && p.id == id
  }

  /** Over every run: an event is marked exactly from the first tick on that finished with it in its batch. */
  lemma {:induction false} MarkedExactly(run: seq<State>, steps: seq<Step>, n: nat, id: Id)
    requires IsRun(run, steps) && n < |run|
    ensures id in run[n].sent <==> id in run[0].sent || exists i | 0 <= i < n :: FinishedBy(steps, i, id)
    decreases n
  {
    if n > 0 {
      MarkedExactly(run, steps, n - 1, id);
      assert Next(run[n - 1], steps[n - 1], run[n]);
      assert id in run[n].sent <==> id in run[n - 1].sent || FinishedBy(steps, n - 1, id);
    }
  }

  /** Over every run: what is stored under an id first stays, and nothing is stored but what was inserted. */
  lemma {:induction false} StoredExactly(run: seq<State>, steps: seq<Step>, n: nat, id: Id)
    requires IsRun(run, steps) && n < |run| && run[0].events == map[]
    ensures id in run[n].events <==> exists i | 0 <= i < n :: steps[i].Insert? && steps[i].id == id
    ensures id in run[n].events ==> exists i | 0 <= i < n ::
      && steps[i].Insert? && steps[i].id == id && steps[i].event == run[n].events[id]
      && forall j | 0 <= j < i :: !(steps[j].Insert? && steps[j].id == id)
    decreases n
  {
    if n > 0 {
      StoredExactly(run, steps, n - 1, id);
      assert Next(run[n - 1], steps[n - 1], run[n]);
    }
  }

  // ---- the poster as the program runs it ------------------------------------------------------------------

  ghost predicate IsGrouping(pending: seq<Arrival>, byOrch: map<Address, seq<Arrival>>) {
    && (forall a | a in byOrch :: byOrch[a] == Filter(pending, For(a)))
    && forall a | a !in byOrch :: Filter(pending, For(a)) == []
  }

  method GroupByOrch(pending: seq<Arrival>) returns (byOrch: map<Address, seq<Arrival>>)
    ensures IsGrouping(pending, byOrch)
  {
    byOrch := map[];
    for i := 0 to |pending|
      invariant IsGrouping(pending[..i], byOrch)
    {
      var ev := pending[i];
      forall a
        ensures Filter(pending[..i + 1], For(a))
          == Filter(pending[..i], For(a)) + (if ev.event.orch == a then [ev] else [])
      {
        FilterSnoc(pending, i, For(a));
      }
      var group := if ev.event.orch in byOrch then byOrch[ev.event.orch] else [];
      byOrch := byOrch[ev.event.orch := group + [ev]];
    }
    assert pending[..|pending|] == pending;
  }

  method IdsOf(group: seq<Arrival>) returns (ids: set<Id>)
    ensures ids == Ids(group)
  {
    ids := {};
    for i := 0 to |group|
      invariant ids == Ids(group[..i])
    {
      assert group[..i + 1] == group[..i] + [group[i]];
      ids := ids + {group[i].id};
    }
    assert group[..|group|] == group;
  }

  lemma IdsOfGroup(pending: seq<Arrival>, orch: Address)
    ensures Ids(Filter(pending, For(orch))) == set p | p in pending && p.event.orch == orch :: p.id
  {
    forall p ensures p in Filter(pending, For(orch)) <==> p in pending && p.event.orch == orch {
      FilterKeeps(pending, For(orch), p);
    }
  }

  function IdsAmong(pending: seq<Arrival>, walk: seq<Address>): set<Id> {
    set p | p in pending && p.event.orch in walk :: p.id
  }

  lemma OneMoreGroup(pending: seq<Arrival>, walk: seq<Address>, orch: Address)
    ensures IdsAmong(pending, walk + [orch]) == IdsAmong(pending, walk) + Ids(Filter(pending, For(orch)))
  {
    IdsOfGroup(pending, orch);
  }

  class Poster {
    var events: Events
    var sent: set<Id>
    ghost var log: seq<Message>
    ghost var told: multiset<Arrival>
    ghost var aborted: multiset<Arrival>

    constructor ()
      ensures Now() == State(map[], {}, multiset{}, multiset{}) && log == []
    {
      events, sent := map[], {};
      log, told, aborted := [], multiset{}, multiset{};
    }

    ghost function Now(): State
      reads this
    {
      State(events, sent, told, aborted)
    }

    method Store(id: Id, e: Event)
      modifies this`events
      ensures Next(old(Now()), Insert(id, e), Now())
    {
      if id !in events {
        events := events[id := e];
      }
    }

    /** The subscribers of one group are sent its digest; false if a lookup of the group or a later write fails. */
    method PostGroup(pending: seq<Arrival>, group: seq<Arrival>, orch: Address,
                     subscribed: Address -> bool, lookups: Address -> bool, writes: Address -> bool)
      returns (ok: bool, reached: bool)
      requires group == Filter(pending, For(orch))
      modifies this`log
      ensures log == old(log) + if reached then MessagesFor(events, pending, subscribed, orch) else []
      ensures reached <==> lookups(orch)
      ensures ok <==> lookups(orch) && (MessagesFor(events, pending, subscribed, orch) == [] || writes(orch))
    {
      assert log == log + [];
      if !lookups(orch) {
        return false, false;
      }
      if !subscribed(orch) {
        return true, true;
      }
      var d := Classify(events, group);
      if IsEmpty(d) {
        return true, true;
      }
      log := log + [Message(orch, d)];
      return writes(orch), true;
    }

    /** The loop over the groups, in whatever order the map yields them; `walk` is the groups reached. */
    method PostGroups(pending: seq<Arrival>, byOrch: map<Address, seq<Arrival>>,
                      subscribed: Address -> bool, lookups: Address -> bool, writes: Address -> bool)
      returns (ok: bool, sentIds: set<Id>, ghost walk: seq<Address>)
      requires IsGrouping(pending, byOrch)
      modifies this`log
      ensures log == old(log) + Messages(events, pending, subscribed, walk) && Distinct(walk)
      ensures ok ==> sentIds == IdsAmong(pending, walk) && forall a | a in byOrch :: a in walk
      ensures (forall a :: lookups(a) && writes(a)) ==> ok
    {
      var todo := byOrch.Keys;
      sentIds, walk := {}, [];
      ghost var before := log;
      while todo != {}
        invariant todo <= byOrch.Keys && Distinct(walk)
        invariant forall a :: a in walk <==> a in byOrch && a !in todo
        invariant log == before + Messages(events, pending, subscribed, walk) && sentIds == IdsAmong(pending, walk)
        decreases todo
      {
        var orch :| orch in todo;
        MessagesOneMore(before, events, pending, subscribed, walk, orch);
        DistinctSnoc(walk, orch);
        var reached;
        ok, reached := PostGroup(pending, byOrch[orch], orch, subscribed, lookups, writes);
        if !ok {
          if reached {
            walk := walk + [orch];
          } else {
            assert log == before + Messages(events, pending, subscribed, walk) + [];
          }
          return;
        }
        var ids := IdsOf(byOrch[orch]);
        OneMoreGroup(pending, walk, orch);
        sentIds, todo, walk := sentIds + ids, todo - {orch}, walk + [orch];
      }
      ok := true;
    }

    /** Group a batch and send each group its digest. */
    method PostAll(pending: seq<Arrival>, subscribed: Address -> bool, lookups: Address -> bool,
                   writes: Address -> bool)
      returns (ok: bool, sentIds: set<Id>, ghost walk: seq<Address>)
      modifies this`log
      ensures log == old(log) + Messages(events, pending, subscribed, walk) && Distinct(walk)
      ensures ok ==> sentIds == Ids(pending) && forall p | p in pending :: p.event.orch in walk
      ensures (forall a :: lookups(a) && writes(a)) ==> ok
    {
      var byOrch := GroupByOrch(pending);
      ok, sentIds, walk := PostGroups(pending, byOrch, subscribed, lookups, writes);
      forall p | p in pending ensures p.event.orch in byOrch {
        FilterKeeps(pending, For(p.event.orch), p);
      }
    }

    /** One tick is a step of the machine. The whole batch is marked at the end, or not at all. */
    method RunOnce(pending: seq<Arrival>, subscribed: Address -> bool, lookups: Address -> bool,
                   writes: Address -> bool, marks: bool)
      returns (ok: bool, ghost walk: seq<Address>)
      requires IsPending(Now(), pending)
      modifies this
      ensures Next(old(Now()), Tick(pending, subscribed, walk, ok), Now())
      ensures log == old(log) + Messages(events, pending, subscribed, walk)
      ensures ok ==> forall p | p in pending :: p.event.orch in walk
      ensures marks && (forall a :: lookups(a) && writes(a)) ==> ok
    {
      var sentIds;
      ok, sentIds, walk := PostAll(pending, subscribed, lookups, writes);
      ok := ok && marks;
      if ok {
        sent := sent + sentIds;
      }
      ghost var shown := AllShown(Messages(events, pending, subscribed, walk));
      told := told + shown;
      aborted := if ok then aborted else aborted + shown;
    }
  }

  lemma MessagesOneMore(before: seq<Message>, t: Events, pending: seq<Arrival>, subscribed: Address -> bool,
                        walk: seq<Address>, orch: Address)
    ensures before + Messages(t, pending, subscribed, walk) + MessagesFor(t, pending, subscribed, orch)
      == before + Messages(t, pending, subscribed, walk + [orch])
  {
    assert (walk + [orch])[..|walk|] == walk;
  }
}
