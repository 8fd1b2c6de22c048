/** How the digest poster groups, splits and orders the tickets of one run (digest_poster.rs). */
module DigestJobs {
  import opened Sequences
  import opened Wrappers
  import opened Text
  import opened Sorting
  import T = Tickets

  type Address = T.Address

  /** A fetched row. */
  datatype Stored = Stored(id: T.Id, row: T.Row)

  /** One message: the tickets of one orchestrator from gateways of one kind. */
  datatype Job = Job(orch: Address, latest: int, isAi: bool, tickets: seq<Stored>)

  function ByTime(): (Stored, Stored) -> bool {
    (a: Stored, b: Stored) => a.row.timestamp <= b.row.timestamp
  }

  function SentTo(orch: Address): Stored -> bool {
    (e: Stored) => e.row.toAddress == Some(orch)
  }

  function HasGateway(): Stored -> bool {
    (e: Stored) => e.row.fromAddress.Some?
  }

  predicate Complete(e: Stored) {
    e.row.toAddress.Some? && e.row.fromAddress.Some?
  }

  /** Whether the gateway of a view is of the wanted kind; `ai` is the kind the explorer gives, or the fallback. */
  function OfKind(ai: Address -> bool, isAi: bool): Stored -> bool {
    (e: Stored) => e.row.fromAddress.Some? && ai(e.row.fromAddress.value) == isAi
  }

  function Views(events: seq<Stored>, orch: Address): seq<Stored> {
    Filter(SortBy(Filter(events, SentTo(orch)), ByTime()), HasGateway())
  }

  function Latest(group: seq<Stored>): int
    requires group != []
  {
    if |group| == 1 then group[0].row.timestamp
    else
      var l := Latest(group[..|group| - 1]);
      if group[|group| - 1].row.timestamp >= l then group[|group| - 1].row.timestamp else l
  }

  function GroupJob(orch: Address, group: seq<Stored>, isAi: bool): seq<Job> {
    if group == [] then [] else [Job(orch, Latest(group), isAi, group)]
  }

  function JobsFor(events: seq<Stored>, ai: Address -> bool, orch: Address): seq<Job> {
    var views := Views(events, orch);
    if |views| == 1 && views[0].row.fromAddress.Some? then
      [Job(orch, views[0].row.timestamp, ai(views[0].row.fromAddress.value), views)]
    else
      GroupJob(orch, Filter(views, OfKind(ai, true)), true) + GroupJob(orch, Filter(views, OfKind(ai, false)), false)
  }

  /** The jobs of every orchestrator, in the order a hash map happens to yield them. */
  function JobsInOrder(events: seq<Stored>, ai: Address -> bool, order: seq<Address>): seq<Job> {
    if order == [] then []
    else JobsInOrder(events, ai, order[..|order| - 1]) + JobsFor(events, ai, order[|order| - 1])
  }

  /** Oldest first, then by address, then the transcoding job before the AI job. */
  function Before(): (Job, Job) -> bool {
    (a: Job, b: Job) =>
      a.latest < b.latest
      || (a.latest == b.latest && (if a.orch == b.orch then !a.isAi || b.isAi else Le(a.orch, b.orch)))
  }

  /** Any order in which the map of groups can be walked. */
  ghost predicate IsWalk(events: seq<Stored>, order: seq<Address>) {
    && Distinct(order)
    && forall a :: a in order <==> exists e :: e in events && e.row.toAddress == Some(a)
  }

  // ---- every complete event lands in exactly one job ---------------------------------------------

  function AllTickets(jobs: seq<Job>): seq<Stored> {
    if jobs == [] then [] else jobs[0].tickets + AllTickets(jobs[1..])
  }

  lemma {:induction false} AllTicketsSplits(a: seq<Job>, b: seq<Job>)
    ensures AllTickets(a + b) == AllTickets(a) + AllTickets(b)
  {
    if a == [] {
      assert a + b == b;
    } else {
      assert (a + b)[1..] == a[1..] + b;
      AllTicketsSplits(a[1..], b);
    }
  }

  lemma AllTicketsOfOne(j: Job)
    ensures AllTickets([j]) == j.tickets
  {
    assert [j][1..] == [];
  }

  lemma GroupJobTickets(orch: Address, group: seq<Stored>, isAi: bool)
    ensures AllTickets(GroupJob(orch, group, isAi)) == group
  {
    if group != [] {
      AllTicketsOfOne(Job(orch, Latest(group), isAi, group));
    }
  }

  lemma ViewsCount(events: seq<Stored>, orch: Address, e: Stored)
    ensures multiset(Views(events, orch))[e]
      == if Complete(e) && e.row.toAddress == Some(orch) then multiset(events)[e] else 0
  {
    FilterCount(SortBy(Filter(events, SentTo(orch)), ByTime()), HasGateway(), e);
    FilterCount(events, SentTo(orch), e);
  }

  lemma JobsForCount(events: seq<Stored>, ai: Address -> bool, orch: Address, e: Stored)
    ensures multiset(AllTickets(JobsFor(events, ai, orch)))[e]
      == if Complete(e) && e.row.toAddress == Some(orch) then multiset(events)[e] else 0
  {
    var views := Views(events, orch);
    ViewsCount(events, orch, e);
    if |views| == 1 && views[0].row.fromAddress.Some? {
      AllTicketsOfOne(Job(orch, views[0].row.timestamp, ai(views[0].row.fromAddress.value), views));
    } else {
      var g, h := Filter(views, OfKind(ai, true)), Filter(views, OfKind(ai, false));
      GroupJobTickets(orch, g, true);
      GroupJobTickets(orch, h, false);
      AllTicketsSplits(GroupJob(orch, g, true), GroupJob(orch, h, false));
      FilterCount(views, OfKind(ai, true), e);
      FilterCount(views, OfKind(ai, false), e);
      assert multiset(g + h) == multiset(g) + multiset(h);
    }
  }

  lemma {:induction false} JobsCount(events: seq<Stored>, ai: Address -> bool, order: seq<Address>, e: Stored)
    requires Distinct(order)
    ensures multiset(AllTickets(JobsInOrder(events, ai, order)))[e]
      == if Complete(e) && e.row.toAddress.value in order then multiset(events)[e] else 0
  {
    if order != [] {
      var init, last := order[..|order| - 1], order[|order| - 1];
      JobsCount(events, ai, init, e);
      JobsForCount(events, ai, last, e);
      AllTicketsSplits(JobsInOrder(events, ai, init), JobsFor(events, ai, last));
      var a, b := AllTickets(JobsInOrder(events, ai, init)), AllTickets(JobsFor(events, ai, last));
      assert multiset(a + b) == multiset(a) + multiset(b);
    }
  }

  /** The jobs hold exactly the fetched events with both addresses, each as often as it was fetched. */
  lemma JobsPartition(events: seq<Stored>, ai: Address -> bool, order: seq<Address>)
    requires IsWalk(events, order)
    ensures multiset(AllTickets(JobsInOrder(events, ai, order))) == multiset(Filter(events, e => Complete(e)))
  {
    var jobs := AllTickets(JobsInOrder(events, ai, order));
    forall e ensures multiset(jobs)[e] == multiset(Filter(events, e => Complete(e)))[e] {
      JobsCount(events, ai, order, e);
      FilterCount(events, e => Complete(e), e);
    }
  }

  // ---- the order of the jobs does not depend on the walk ---------------------------------------------

  lemma JobsBelong(events: seq<Stored>, ai: Address -> bool, orch: Address, j: Job)
    requires j.orch != orch
    ensures multiset(JobsFor(events, ai, orch))[j] == 0
  {
    assert j !in JobsFor(events, ai, orch);
  }

  lemma {:induction false} JobsInOrderCount(events: seq<Stored>, ai: Address -> bool, order: seq<Address>, j: Job)
    requires Distinct(order)
    ensures multiset(JobsInOrder(events, ai, order))[j]
      == if j.orch in order then multiset(JobsFor(events, ai, j.orch))[j] else 0
  {
    if order != [] {
      var init, last := order[..|order| - 1], order[|order| - 1];
      JobsInOrderCount(events, ai, init, j);
      var a, b := JobsInOrder(events, ai, init), JobsFor(events, ai, last);
      assert multiset(a + b)[j] == multiset(a)[j] + multiset(b)[j];
      if last == j.orch {
        assert j.orch !in init;
      } else {
        JobsBelong(events, ai, last, j);
        assert j.orch in order <==> j.orch in init;
      }
    }
  }

  /** At most two jobs per orchestrator, and the pair (orchestrator, kind) names a job. */
  lemma JobsAreNamed(events: seq<Stored>, ai: Address -> bool, orch: Address, j: Job, k: Job)
    requires j in JobsFor(events, ai, orch) && k in JobsFor(events, ai, orch)
    ensures j.orch == orch && (j.isAi == k.isAi ==> j == k)
    ensures |JobsFor(events, ai, orch)| <= 2
  {
  }

  lemma JobsComeFromTheirOrchestrator(events: seq<Stored>, ai: Address -> bool, order: seq<Address>, j: Job)
    requires Distinct(order) && j in JobsInOrder(events, ai, order)
    ensures j in JobsFor(events, ai, j.orch)
  {
    JobsInOrderCount(events, ai, order, j);
    assert multiset(JobsInOrder(events, ai, order))[j] > 0;
    assert multiset(JobsFor(events, ai, j.orch))[j] > 0;
  }

  lemma BeforeIsTotalPreorder()
    ensures TotalPreorder(Before())
  {
    forall x, y ensures Before()(x, y) || Before()(y, x) {
      LeIsTotal(x.orch, y.orch);
    }
    forall x, y, z | Before()(x, y) && Before()(y, z) ensures Before()(x, z) {
      BeforeIsTransitive(x, y, z);
    }
  }

  lemma BeforeIsTransitive(x: Job, y: Job, z: Job)
    requires Before()(x, y) && Before()(y, z)
    ensures Before()(x, z)
  {
    if x.latest == y.latest == z.latest {
      if x.orch != y.orch && y.orch != z.orch {
        LeIsTransitive(x.orch, y.orch, z.orch);
        if x.orch == z.orch {
          LeIsAntisymmetric(x.orch, y.orch);
        }
      }
    }
  }

  lemma TiesHaveOneName(x: Job, y: Job)
    requires Before()(x, y) && Before()(y, x)
    ensures x.orch == y.orch && x.isAi == y.isAi && x.latest == y.latest
  {
    if x.orch != y.orch {
      LeIsAntisymmetric(x.orch, y.orch);
    }
  }

  /** The messages of a run, and their order, are the same however the hash map is walked. */
  lemma OrderIsDeterministic(events: seq<Stored>, ai: Address -> bool, order: seq<Address>, other: seq<Address>)
    requires IsWalk(events, order) && IsWalk(events, other)
    ensures SortBy(JobsInOrder(events, ai, order), Before()) == SortBy(JobsInOrder(events, ai, other), Before())
  {
    var a, b := JobsInOrder(events, ai, order), JobsInOrder(events, ai, other);
    forall j ensures multiset(a)[j] == multiset(b)[j] {
      JobsInOrderCount(events, ai, order, j);
      JobsInOrderCount(events, ai, other, j);
    }
    assert multiset(a) == multiset(b);
    BeforeIsTotalPreorder();
    SortBySorts(a, Before());
    SortBySorts(b, Before());
    var s, t := SortBy(a, Before()), SortBy(b, Before());
    forall x, y | x in s && y in s && Before()(x, y) && Before()(y, x) ensures x == y {
      assert x in multiset(s) && y in multiset(s);
      assert x in a && y in a;
      TiesHaveOneName(x, y);
      JobsComeFromTheirOrchestrator(events, ai, order, x);
      JobsComeFromTheirOrchestrator(events, ai, order, y);
      JobsAreNamed(events, ai, x.orch, x, y);
    }
    SortedIsUnique(s, t, Before());
  }

  // ---- what a job holds, and where it is sent -----------------------------------------------------

  /** The event has both addresses, is paid to `orch`, and comes from a gateway of the kind `isAi`. */
  predicate Paid(e: Stored, ai: Address -> bool, orch: Address, isAi: bool) {
    e.row.toAddress == Some(orch) && match e.row.fromAddress case Some(g) => ai(g) == isAi case None => false
  }

  /** The job lists the events paid to its orchestrator from gateways of its kind, each as often as fetched. */
  ghost predicate HoldsItsEvents(events: seq<Stored>, ai: Address -> bool, j: Job) {
    forall e :: multiset(j.tickets)[e] == if Paid(e, ai, j.orch, j.isAi) then multiset(events)[e] else 0
  }

  /** Its tickets are in order of time, and the last of them is the latest. */
  ghost predicate InOrderOfTime(j: Job) {
    && (forall i, k | 0 <= i < k < |j.tickets| :: j.tickets[i].row.timestamp <= j.tickets[k].row.timestamp)
    && (forall e | e in j.tickets :: e.row.timestamp <= j.latest)
    && exists e :: e in j.tickets && e.row.timestamp == j.latest
  }

  lemma {:induction false} LatestIsMaximum(group: seq<Stored>)
    requires group != []
    ensures forall e | e in group :: e.row.timestamp <= Latest(group)
    ensures exists e :: e in group && e.row.timestamp == Latest(group)
  {
    var init, last := group[..|group| - 1], group[|group| - 1];
    if init != [] {
      LatestIsMaximum(init);
      assert group == init + [last];
    }
  }

  lemma {:induction false} FilterKeepsOrder(s: seq<Stored>, p: Stored -> bool)
    requires Sorted(s, ByTime())
    ensures Sorted(Filter(s, p), ByTime())
  {
    if s != [] {
      var init, last := s[..|s| - 1], s[|s| - 1];
      FilterKeepsOrder(init, p);
      forall x | x in Filter(init, p) ensures ByTime()(x, last) {
        FilterKeeps(init, p, x);
      }
    }
  }

  lemma ViewsAreInOrder(events: seq<Stored>, orch: Address)
    ensures Sorted(Views(events, orch), ByTime())
  {
    SortBySorts(Filter(events, SentTo(orch)), ByTime());
    FilterKeepsOrder(SortBy(Filter(events, SentTo(orch)), ByTime()), HasGateway());
  }

  lemma SingleView(views: seq<Stored>, ai: Address -> bool, isAi: bool)
    requires |views| == 1 && OfKind(ai, isAi)(views[0])
    ensures Filter(views, OfKind(ai, isAi)) == views && Latest(views) == views[0].row.timestamp
  {
    assert views == [views[0]];
    FilterOfOne(views[0], OfKind(ai, isAi));
  }

  lemma GroupJobIs(orch: Address, group: seq<Stored>, isAi: bool, j: Job)
    requires j in GroupJob(orch, group, isAi)
    ensures group != [] && j == Job(orch, Latest(group), isAi, group)
  {
  }

  lemma JobIsItsGroup(events: seq<Stored>, ai: Address -> bool, orch: Address, j: Job)
    requires j in JobsFor(events, ai, orch)
    ensures var g := Filter(Views(events, orch), OfKind(ai, j.isAi));
      g != [] && j == Job(orch, Latest(g), j.isAi, g)
  {
    var views := Views(events, orch);
    if |views| == 1 && views[0].row.fromAddress.Some? {
      SingleView(views, ai, j.isAi);
    } else if j in GroupJob(orch, Filter(views, OfKind(ai, true)), true) {
      GroupJobIs(orch, Filter(views, OfKind(ai, true)), true, j);
    } else {
      GroupJobIs(orch, Filter(views, OfKind(ai, false)), false, j);
    }
  }

  lemma GroupCount(events: seq<Stored>, ai: Address -> bool, orch: Address, isAi: bool, e: Stored)
    ensures multiset(Filter(Views(events, orch), OfKind(ai, isAi)))[e]
      == if Paid(e, ai, orch, isAi) then multiset(events)[e] else 0
  {
    FilterCount(Views(events, orch), OfKind(ai, isAi), e);
    ViewsCount(events, orch, e);
  }

  lemma DatedByLatest(j: Job)
    requires j.tickets != [] && Sorted(j.tickets, ByTime()) && j.latest == Latest(j.tickets)
    ensures InOrderOfTime(j)
  {
    LatestIsMaximum(j.tickets);
    assert forall i, k | 0 <= i < k < |j.tickets| :: ByTime()(j.tickets[i], j.tickets[k]);
  }

  /**
    Whatever the walk, a job lists exactly the fetched events paid to its orchestrator from gateways of its
    kind, in order of time, and is dated by the latest of them.
  */
  lemma JobsAreExact(events: seq<Stored>, ai: Address -> bool, order: seq<Address>, j: Job)
    requires Distinct(order) && j in JobsInOrder(events, ai, order)
    ensures HoldsItsEvents(events, ai, j) && InOrderOfTime(j)
  {
    JobsComeFromTheirOrchestrator(events, ai, order, j);
    JobIsItsGroup(events, ai, j.orch, j);
    forall e {
      GroupCount(events, ai, j.orch, j.isAi, e);
    }
    ViewsAreInOrder(events, j.orch);
    FilterKeepsOrder(Views(events, j.orch), OfKind(ai, j.isAi));
    DatedByLatest(j);
  }

  lemma {:induction false} InSomeTickets(jobs: seq<Job>, e: Stored)
    requires e in AllTickets(jobs)
    ensures exists j :: j in jobs && e in j.tickets
  {
    if e in jobs[0].tickets {
      assert jobs[0] in jobs;
    } else {
      InSomeTickets(jobs[1..], e);
      var j :| j in jobs[1..] && e in j.tickets;
      assert j in jobs;
    }
  }

  /** Every complete event is in a job of its orchestrator and of the kind of its gateway. */
  lemma EveryEventHasAJob(events: seq<Stored>, ai: Address -> bool, order: seq<Address>, e: Stored)
    requires IsWalk(events, order) && e in events && Complete(e)
    ensures exists j ::
      j in JobsInOrder(events, ai, order) && e in j.tickets
        && j.orch == e.row.toAddress.value && j.isAi == ai(e.row.fromAddress.value)
  {
    var jobs := JobsInOrder(events, ai, order);
    JobsCount(events, ai, order, e);
    assert multiset(AllTickets(jobs))[e] == multiset(events)[e] > 0;
    InSomeTickets(jobs, e);
    var j :| j in jobs && e in j.tickets;
    JobsAreExact(events, ai, order, j);
    assert multiset(j.tickets)[e] > 0;
  }

  /** The events of one moment keep the order they were fetched in. */
  lemma SameTimeKeepsFetchOrder(events: seq<Stored>, orch: Address, time: int)
    ensures Filter(Views(events, orch), (e: Stored) => e.row.timestamp == time)
      == Filter(events, (e: Stored) => Complete(e) && e.row.toAddress == Some(orch) && e.row.timestamp == time)
  {
    var at := (e: Stored) => e.row.timestamp == time;
    var at' := (e: Stored) => e.row.timestamp == time && e.row.fromAddress.Some?;
    var mine := Filter(events, SentTo(orch));
    var sorted := SortBy(mine, ByTime());
    FilterTwice(sorted, HasGateway(), at, at');
    SortIsStable(mine, ByTime(), at');
    FilterTwice(events, SentTo(orch), at',
      (e: Stored) => Complete(e) && e.row.toAddress == Some(orch) && e.row.timestamp == time);
  }

  lemma TwoOfAKind(a: seq<Job>, b: seq<Job>, j: Job)
    requires |a| <= 1 && |b| <= 1 && (forall x | x in a :: x.isAi) && (forall x | x in b :: !x.isAi)
    ensures multiset(a + b)[j] <= 1
  {
    assert multiset(a + b) == multiset(a) + multiset(b);
    assert |multiset(a)| <= 1 && |multiset(b)| <= 1;
  }

  lemma OneOfEach(events: seq<Stored>, ai: Address -> bool, orch: Address, j: Job)
    ensures multiset(JobsFor(events, ai, orch))[j] <= 1
  {
    var views := Views(events, orch);
    TwoOfAKind(GroupJob(orch, Filter(views, OfKind(ai, true)), true),
      GroupJob(orch, Filter(views, OfKind(ai, false)), false), j);
  }

  lemma JobsDiffer(events: seq<Stored>, ai: Address -> bool, order: seq<Address>, j: Job)
    requires Distinct(order)
    ensures multiset(JobsInOrder(events, ai, order))[j] <= 1
  {
    JobsInOrderCount(events, ai, order, j);
    OneOfEach(events, ai, j.orch, j);
  }

  lemma TwoPlaces<T>(s: seq<T>, i: nat, k: nat)
    requires i < k < |s| && s[i] == s[k]
    ensures multiset(s)[s[i]] >= 2
  {
    assert s == s[..k] + s[k..];
    assert s[..k][i] == s[i] && s[k..][0] == s[i];
    assert s[i] in s[..k] && s[i] in s[k..];
  }

  /**
    Of two messages of a run the first has the earlier date; of equal dates the lower orchestrator; of one
    orchestrator the transcoding job goes before the AI job.
  */
  lemma MessagesAreInOrder(events: seq<Stored>, ai: Address -> bool, order: seq<Address>, i: nat, k: nat)
    requires Distinct(order)
    requires var sent := SortBy(JobsInOrder(events, ai, order), Before()); i < k < |sent|
    ensures var sent := SortBy(JobsInOrder(events, ai, order), Before());
      && sent[i].latest <= sent[k].latest
      && (sent[i].latest == sent[k].latest ==>
            || Precedes(sent[i].orch, sent[k].orch)
            || (sent[i].orch == sent[k].orch && !sent[i].isAi && sent[k].isAi))
  {
    var jobs := JobsInOrder(events, ai, order);
    BeforeIsTotalPreorder();
    SortBySorts(jobs, Before());
    var sent := SortBy(jobs, Before());
    assert Before()(sent[i], sent[k]);
    LeExactly(sent[i].orch, sent[k].orch);
    JobsDiffer(events, ai, order, sent[i]);
    if sent[i] == sent[k] {
      TwoPlaces(sent, i, k);
    } else if sent[i].orch == sent[k].orch {
      assert sent[i] in multiset(jobs) && sent[k] in multiset(jobs);
      JobsComeFromTheirOrchestrator(events, ai, order, sent[i]);
      JobsComeFromTheirOrchestrator(events, ai, order, sent[k]);
      JobsAreNamed(events, ai, sent[i].orch, sent[i], sent[k]);
    }
  }
}
