/**
  The subscribers' delegation digest (subscriber_digest_poster.rs, the delegator tables of
  event_streams.rs): which Bond counts as a new delegator, and what the four lists of a digest hold.
*/
module DelegatorDigest {
  import opened Sorting

  type Id = string
  type Address = string

  datatype Kind = Bond | Unbond | Rebond | Other

  datatype Event = Event(kind: Kind, delegator: Address, orch: Address, time: int)

  type Events = map<Id, Event>

  predicate SamePair(a: Event, b: Event) {
    a.delegator == b.delegator && a.orch == b.orch
  }

  function Earlier(t: Events, e: Event): set<Id> {
    set id | id in t && SamePair(t[id], e) && t[id].time < e.time
  }

  /** How many stored events of the pair, of whatever kind, are strictly earlier. */
  function CountPrior(t: Events, e: Event): nat {
    |Earlier(t, e)|
  }

  predicate LabelledNew(t: Events, e: Event) {
    e.kind.Bond? && CountPrior(t, e) == 0
  }

  lemma NewMeansNoneEarlier(t: Events, e: Event)
    ensures LabelledNew(t, e) <==> e.kind.Bond? && forall id | id in t && SamePair(t[id], e) :: t[id].time >= e.time
  {
    if LabelledNew(t, e) {
      assert Earlier(t, e) == {};
      forall id | id in t && SamePair(t[id], e) ensures t[id].time >= e.time {
        assert id !in Earlier(t, e);
      }
    } else if e.kind.Bond? {
      var id :| id in Earlier(t, e);
    }
  }

  // ---- labels over a whole history --------------------------------------------------------------------

  datatype Arrival = Arrival(id: Id, event: Event)

  /** The table after the first `n` inserts. */
  function Stored(history: seq<Arrival>, n: nat): Events
    requires n <= |history|
    decreases n
  {
    if n == 0 then map[]
    else
      var before, a := Stored(history, n - 1), history[n - 1];
      if a.id in before then before else before[a.id := a.event]
  }

  /** If it is a Bond stored for the first time, it is later than every stored Bond of its pair. */
  predicate ArrivesInOrder(history: seq<Arrival>, n: nat)
    requires n < |history|
  {
    history[n].id !in Stored(history, n) ==> LaterThanBonds(Stored(history, n), history[n].event)
  }

  /** The Bonds of the pair of `e` are stored in order, with distinct times. */
  ghost predicate BondsInOrder(history: seq<Arrival>, e: Event) {
    forall n | 0 <= n < |history| && SamePair(history[n].event, e) :: ArrivesInOrder(history, n)
  }

  predicate LaterThanBonds(t: Events, e: Event) {
    e.kind.Bond? ==> forall id | id in t && t[id].kind.Bond? && SamePair(t[id], e) :: t[id].time < e.time
  }

  lemma {:induction false} StoredGrows(history: seq<Arrival>, m: nat, n: nat, id: Id)
    requires m <= n <= |history| && id in Stored(history, m)
    ensures id in Stored(history, n) && Stored(history, n)[id] == Stored(history, m)[id]
    decreases n
  {
    if m < n {
      StoredGrows(history, m, n - 1, id);
    }
  }

  ghost predicate Bonds(t: Events, a: Id, b: Id) {
    a in t && b in t && t[a].kind.Bond? && t[b].kind.Bond? && SamePair(t[a], t[b])
  }

  /** The insert that stored `id`. */
  lemma {:induction false} ArrivedAt(history: seq<Arrival>, n: nat, id: Id) returns (i: nat)
    requires n <= |history| && id in Stored(history, n)
    ensures i < n && history[i].id == id && id !in Stored(history, i) && history[i].event == Stored(history, n)[id]
    decreases n
  {
    if id in Stored(history, n - 1) {
      i := ArrivedAt(history, n - 1, id);
    } else {
      i := n - 1;
    }
  }

  /** Of two Bonds of a pair, the one stored later is later: their times differ. */
  lemma InOrderOfArrival(history: seq<Arrival>, n: nat, i: nat, j: nat)
    requires i < j < n <= |history| && ArrivesInOrder(history, j) && history[j].id !in Stored(history, j)
    requires history[i].event.kind.Bond? && history[j].event.kind.Bond? && SamePair(history[i].event, history[j].event)
    requires history[i].id !in Stored(history, i)
    ensures history[i].event.time < history[j].event.time
  {
    StoredGrows(history, i + 1, j, history[i].id);
  }

  lemma NewIsEarliest(history: seq<Arrival>, m: nat, k: nat, a: Id, b: Id)
    requires m <= k <= |history| && Bonds(Stored(history, k), a, b) && a != b
    requires BondsInOrder(history, Stored(history, k)[a])
    requires a in Stored(history, m) && LabelledNew(Stored(history, m), Stored(history, k)[a])
    ensures Stored(history, k)[a].time < Stored(history, k)[b].time
  {
    StoredGrows(history, m, k, a);
    var i := ArrivedAt(history, m, a);
    var j := ArrivedAt(history, k, b);
    if i < j {
      InOrderOfArrival(history, k, i, j);
    } else {
      InOrderOfArrival(history, k, j, i);
      StoredGrows(history, j + 1, m, b);
      NewMeansNoneEarlier(Stored(history, m), history[i].event);
    }
  }

  /**
    While the Bonds of a pair arrive in order with distinct times, at most one of them is ever labelled a
    new delegator, at whatever moments the digests are built, and it is the pair's earliest.
  */
  lemma OnlyTheFirstIsNew(history: seq<Arrival>, m: nat, n: nat, a: Id, b: Id)
    requires m <= |history| && n <= |history|
    requires a in Stored(history, m) && LabelledNew(Stored(history, m), Stored(history, m)[a])
    requires BondsInOrder(history, Stored(history, m)[a])
    requires b in Stored(history, n) && Stored(history, n)[b].kind.Bond?
      && SamePair(Stored(history, m)[a], Stored(history, n)[b])
    ensures a != b ==> Stored(history, m)[a].time < Stored(history, n)[b].time
    ensures LabelledNew(Stored(history, n), Stored(history, n)[b]) ==> a == b
  {
    var k := if m < n then n else m;
    StoredGrows(history, m, k, a);
    StoredGrows(history, n, k, b);
    if a != b {
      NewIsEarliest(history, m, k, a, b);
      if LabelledNew(Stored(history, n), Stored(history, n)[b]) {
        NewIsEarliest(history, n, k, b, a);
      }
    }
  }

  predicate NoneEarlier(t: Events, e: Event) {
    forall id | id in t && SamePair(t[id], e) :: t[id].time >= e.time
  }

  /** Insert `i` is the one that stores its event. */
  predicate FirstStored(history: seq<Arrival>, i: nat) {
    i < |history| && history[i].id !in Stored(history, i)
  }

  /** A digest built at some moment after insert `i` labels its event new. */
  ghost predicate EverNew(history: seq<Arrival>, i: nat)
    requires i < |history|
  {
    exists m :: i < m <= |history| && LabelledNew(Stored(history, m), history[i].event)
  }

  lemma EarlierStaysEarlier(history: seq<Arrival>, i: nat, m: nat)
    requires FirstStored(history, i) && i < m <= |history| && LabelledNew(Stored(history, m), history[i].event)
    ensures NoneEarlier(Stored(history, i), history[i].event)
  {
    NewMeansNoneEarlier(Stored(history, m), history[i].event);
    forall id | id in Stored(history, i) && SamePair(Stored(history, i)[id], history[i].event)
      ensures Stored(history, i)[id].time >= history[i].event.time
    {
      StoredGrows(history, i, m, id);
    }
  }

  /**
    Over every history: a Bond is labelled new in some digest exactly when, at the moment it was stored,
    no event of its pair that was there already was strictly earlier. What comes later can only end that.
  */
  lemma EverNewExactly(history: seq<Arrival>, i: nat)
    requires FirstStored(history, i) && history[i].event.kind.Bond?
    ensures EverNew(history, i) <==> NoneEarlier(Stored(history, i), history[i].event)
  {
    var e := history[i].event;
    if m :| i < m <= |history| && LabelledNew(Stored(history, m), e) {
      EarlierStaysEarlier(history, i, m);
    }
    if NoneEarlier(Stored(history, i), e) {
      assert Stored(history, i + 1) == Stored(history, i)[history[i].id := e];
      NewMeansNoneEarlier(Stored(history, i + 1), e);
      assert LabelledNew(Stored(history, i + 1), e);
    }
  }

  /**
    Two Bonds of a pair, `i` stored before `j`, are both labelled new at some moments exactly when neither
    found an earlier event of the pair on arrival; the second is then no later than the first.
  */
  lemma BothNewExactly(history: seq<Arrival>, i: nat, j: nat)
    requires FirstStored(history, i) && FirstStored(history, j) && i < j
    requires history[i].event.kind.Bond? && history[j].event.kind.Bond? && SamePair(history[i].event, history[j].event)
    ensures EverNew(history, i) && EverNew(history, j)
      <==> NoneEarlier(Stored(history, i), history[i].event) && NoneEarlier(Stored(history, j), history[j].event)
    ensures EverNew(history, j) ==> history[j].event.time <= history[i].event.time
  {
    EverNewExactly(history, i);
    EverNewExactly(history, j);
    if NoneEarlier(Stored(history, j), history[j].event) {
      SecondIsNoLater(history, i, j);
    }
  }

  lemma SecondIsNoLater(history: seq<Arrival>, i: nat, j: nat)
    requires FirstStored(history, i) && i < j < |history| && SamePair(history[i].event, history[j].event)
    requires NoneEarlier(Stored(history, j), history[j].event)
    ensures history[j].event.time <= history[i].event.time
  {
    StoredGrows(history, i + 1, j, history[i].id);
  }

  /** Two Bonds with the same time, stored one after the other: a digest after each labels it new. */
  lemma EqualTimesAreBothNew(a: Id, b: Id, delegator: Address, orch: Address, time: int)
    requires a != b
    ensures var e := Event(Bond, delegator, orch, time);
      var history := [Arrival(a, e), Arrival(b, e)];
      EverNew(history, 0) && EverNew(history, 1)
  {
    var e := Event(Bond, delegator, orch, time);
    var history := [Arrival(a, e), Arrival(b, e)];
    assert Stored(history, 1) == map[a := e];
    EverNewExactly(history, 0);
    EverNewExactly(history, 1);
  }

  // ---- the four lists --------------------------------------------------------------------------------------

  function OfKind(k: Kind): Arrival -> bool {
    (p: Arrival) => p.event.kind == k
  }

  function IsNewBond(t: Events): Arrival -> bool {
    (p: Arrival) => LabelledNew(t, p.event)
  }

  function IsStakeChange(t: Events): Arrival -> bool {
    (p: Arrival) => p.event.kind.Bond? && !LabelledNew(t, p.event)
  }

  datatype Digest = Digest(newBonds: seq<Arrival>,
    stakeChanges: seq<Arrival>, unbonds: seq<Arrival>, rebonds: seq<Arrival>)

  predicate IsEmpty(d: Digest) {
    d.newBonds == [] && d.stakeChanges == [] && d.unbonds == [] && d.rebonds == []
  }

  function DigestOf(t: Events, group: seq<Arrival>): Digest {
    Digest(Filter(group, IsNewBond(t)), Filter(group, IsStakeChange(t)),
      Filter(group, OfKind(Unbond)), Filter(group, OfKind(Rebond)))
  }

  function Shown(d: Digest): multiset<Arrival> {
    multiset(d.newBonds) + multiset(d.stakeChanges) + multiset(d.unbonds) + multiset(d.rebonds)
  }

  /** Every event of a group is in exactly one of the four lists, once; events of any other kind are in none. */
  lemma ListsPartition(t: Events, group: seq<Arrival>, p: Arrival)
    ensures Shown(DigestOf(t, group))[p] == if p.event.kind.Other? then 0 else multiset(group)[p]
    ensures p in DigestOf(t, group).newBonds ==> LabelledNew(t, p.event)
  {
    FilterCount(group, IsNewBond(t), p);
    FilterCount(group, IsStakeChange(t), p);
    FilterCount(group, OfKind(Unbond), p);
    FilterCount(group, OfKind(Rebond), p);
    FilterKeeps(group, IsNewBond(t), p);
  }

  /** No stored event of this delegator with this orchestrator, of whatever kind, is earlier. */
  predicate FirstOfItsPair(t: Events, e: Event) {
    forall id | id in t :: t[id].delegator == e.delegator && t[id].orch == e.orch ==> t[id].time >= e.time
  }

  /**
    Which list shows an event: Bonds that are the first of their pair are new delegators, other Bonds
    changes of stake; Unbonds and Rebonds have a list each.
  */
  lemma ListsAreExact(t: Events, group: seq<Arrival>, p: Arrival)
    ensures var d, n := DigestOf(t, group), multiset(group)[p];
      && multiset(d.newBonds)[p] == (if p.event.kind == Bond && FirstOfItsPair(t, p.event) then n else 0)
      && multiset(d.stakeChanges)[p] == (if p.event.kind == Bond && !FirstOfItsPair(t, p.event) then n else 0)
      && multiset(d.unbonds)[p] == (if p.event.kind == Unbond then n else 0)
      && multiset(d.rebonds)[p] == (if p.event.kind == Rebond then n else 0)
  {
    FilterCount(group, IsNewBond(t), p);
    FilterCount(group, IsStakeChange(t), p);
    FilterCount(group, OfKind(Unbond), p);
    FilterCount(group, OfKind(Rebond), p);
    NewMeansNoneEarlier(t, p.event);
    assert FirstOfItsPair(t, p.event) <==> NoneEarlier(t, p.event);
  }

  /** Each list keeps the order of the group. */
  lemma ListsKeepOrder(t: Events, a: seq<Arrival>, b: seq<Arrival>)
    ensures var d, e, both := DigestOf(t, a), DigestOf(t, b), DigestOf(t, a + b);
      both == Digest(d.newBonds + e.newBonds, d.stakeChanges + e.stakeChanges,
        d.unbonds + e.unbonds, d.rebonds + e.rebonds)
  {
    FilterSplits(a, b, IsNewBond(t));
    FilterSplits(a, b, IsStakeChange(t));
    FilterSplits(a, b, OfKind(Unbond));
    FilterSplits(a, b, OfKind(Rebond));
  }

  method Classify(t: Events, group: seq<Arrival>) returns (d: Digest)
    ensures d == DigestOf(t, group)
  {
    var newBonds, stakeChanges, unbonds, rebonds := [], [], [], [];
    for i := 0 to |group|
      invariant Digest(newBonds, stakeChanges, unbonds, rebonds) == DigestOf(t, group[..i])
    {
      var ev := group[i];
      FilterSnoc(group, i, IsNewBond(t));
      FilterSnoc(group, i, IsStakeChange(t));
      FilterSnoc(group, i, OfKind(Unbond));
      FilterSnoc(group, i, OfKind(Rebond));
      match ev.event.kind {
        case Bond =>
          var prior := CountPrior(t, ev.event);
          if prior == 0 {
            newBonds := newBonds + [ev];
          } else {
            stakeChanges := stakeChanges + [ev];
          }
        case Unbond => unbonds := unbonds + [ev];
        case Rebond => rebonds := rebonds + [ev];
        case Other =>
      }
    }
    assert group[..|group|] == group;
    d := Digest(newBonds, stakeChanges, unbonds, rebonds);
  }
}
