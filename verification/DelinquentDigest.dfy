/** Whom the public delinquency digest of a round lists (reward_watch_poller.rs). */
module DelinquentDigest {
  import opened Wrappers
  import opened Text
  import opened Sorting

  type Address = string

  /** One page of reward events: the orchestrator each is addressed to, if any. */
  type EventPage = seq<Option<Address>>

  /** The pages of one listing, followed to the last: there is always a first. */
  type EventPages = pages: seq<EventPage> | pages != [] witness [[]]

  datatype OrchRow = OrchRow(address: Address, isActive: bool, totalStake: real)

  predicate InPage(page: EventPage, a: Address) {
    exists i | 0 <= i < |page| :: page[i].Some? && Lower(page[i].value) == a
  }

  predicate RewardedIn(pages: seq<EventPage>, a: Address) {
    exists p | 0 <= p < |pages| :: InPage(pages[p], a)
  }

  function PageAddresses(page: EventPage): set<Address> {
    if page == [] then {}
    else
      var last := page[|page| - 1];
      PageAddresses(page[..|page| - 1]) + if last.Some? then {Lower(last.value)} else {}
  }

  /** Everyone some page says has called reward, lower-cased. */
  function RewardedAddresses(pages: seq<EventPage>): set<Address> {
    if pages == [] then {} else RewardedAddresses(pages[..|pages| - 1]) + PageAddresses(pages[|pages| - 1])
  }

  lemma {:induction false} PageAddressesAre(page: EventPage, a: Address)
    ensures a in PageAddresses(page) <==> InPage(page, a)
  {
    if page != [] {
      var init, last := page[..|page| - 1], page[|page| - 1];
      PageAddressesAre(init, a);
      assert forall i | 0 <= i < |init| :: init[i] == page[i];
      assert InPage(page, a) <==> InPage(init, a) || (last.Some? && Lower(last.value) == a);
    }
  }

  lemma {:induction false} RewardedAddressesAre(pages: seq<EventPage>, a: Address)
    ensures a in RewardedAddresses(pages) <==> RewardedIn(pages, a)
  {
    if pages != [] {
      var init, last := pages[..|pages| - 1], pages[|pages| - 1];
      RewardedAddressesAre(init, a);
      PageAddressesAre(last, a);
      assert forall p | 0 <= p < |init| :: init[p] == pages[p];
      assert RewardedIn(pages, a) <==> RewardedIn(init, a) || InPage(last, a);
    }
  }

  /** Follows the pages to the last; a page other than the last carries a next cursor. */
  method RewardedOrchs(pages: EventPages) returns (rewarded: set<Address>)
    ensures rewarded == RewardedAddresses(pages)
    ensures forall a :: a in rewarded <==> RewardedIn(pages, a)
  {
    rewarded := {};
    var cursor := 0;
    while true
      invariant 0 <= cursor < |pages| && rewarded == RewardedAddresses(pages[..cursor])
      decreases |pages| - cursor
    {
      var page := pages[cursor];
      ghost var before := rewarded;
      for i := 0 to |page|
        invariant rewarded == before + PageAddresses(page[..i])
      {
        assert page[..i + 1][..i] == page[..i];
        if page[i].Some? {
          rewarded := rewarded + {Lower(page[i].value)};
        }
      }
      assert page[..|page|] == page && pages[..cursor + 1][..cursor] == pages[..cursor];
      if cursor + 1 == |pages| {
        assert pages[..cursor + 1] == pages;
        break;
      }
      cursor := cursor + 1;
    }
    forall a ensures a in rewarded <==> RewardedIn(pages, a) {
      RewardedAddressesAre(pages, a);
    }
  }

  /** Active, and in no page of the round's reward events. */
  predicate Delinquent(row: OrchRow, rewarded: set<Address>) {
    row.isActive && Lower(row.address) !in rewarded
  }

  /** The delinquents among `rows`, in the order given. */
  function DelinquentsOf(rows: seq<OrchRow>, rewarded: set<Address>): seq<OrchRow> {
    if rows == [] then []
    else
      DelinquentsOf(rows[..|rows| - 1], rewarded)
      + (if Delinquent(rows[|rows| - 1], rewarded) then [rows[|rows| - 1]] else [])
  }

  function Flatten(pages: seq<seq<OrchRow>>): seq<OrchRow> {
    if pages == [] then [] else Flatten(pages[..|pages| - 1]) + pages[|pages| - 1]
  }

  /** Largest stake first. */
  function ByStake(): (OrchRow, OrchRow) -> bool {
    (a: OrchRow, b: OrchRow) => a.totalStake >= b.totalStake
  }

  lemma {:induction false} DelinquentsSplit(a: seq<OrchRow>, b: seq<OrchRow>, rewarded: set<Address>)
    ensures DelinquentsOf(a + b, rewarded) == DelinquentsOf(a, rewarded) + DelinquentsOf(b, rewarded)
  {
    if b == [] {
      assert a + b == a;
    } else {
      assert (a + b)[..|a + b| - 1] == a + b[..|b| - 1];
      DelinquentsSplit(a, b[..|b| - 1], rewarded);
    }
  }

  /** The digest's list: every delinquent of every page, largest stake first. */
  function DigestList(pages: seq<seq<OrchRow>>, rewarded: set<Address>): seq<OrchRow> {
    SortBy(DelinquentsOf(Flatten(pages), rewarded), ByStake())
  }

  lemma DigestListIs(pages: seq<seq<OrchRow>>, rewarded: set<Address>)
    ensures Sorted(DigestList(pages, rewarded), ByStake())
    ensures multiset(DigestList(pages, rewarded)) == multiset(DelinquentsOf(Flatten(pages), rewarded))
    ensures forall row :: row in DigestList(pages, rewarded) <==> row in Flatten(pages) && Delinquent(row, rewarded)
  {
    var list, unsorted := DigestList(pages, rewarded), DelinquentsOf(Flatten(pages), rewarded);
    SortBySorts(unsorted, ByStake());
    forall row ensures row in list <==> row in Flatten(pages) && Delinquent(row, rewarded) {
      assert row in list <==> row in multiset(list);
      assert row in unsorted <==> row in multiset(unsorted);
      DelinquentsAre(Flatten(pages), rewarded, row);
    }
  }

  /** The last page is the one without a next cursor. */
  method CollectDelinquents(pages: seq<seq<OrchRow>>, rewarded: set<Address>) returns (list: seq<OrchRow>)
    ensures list == DigestList(pages, rewarded)
    ensures Sorted(list, ByStake())
    ensures forall row :: row in list <==> row in Flatten(pages) && Delinquent(row, rewarded)
  {
    list := [];
    for c := 0 to |pages|
      invariant list == DelinquentsOf(Flatten(pages[..c]), rewarded)
    {
      var page := pages[c];
      ghost var before := list;
      for i := 0 to |page|
        invariant list == before + DelinquentsOf(page[..i], rewarded)
      {
        assert page[..i + 1][..i] == page[..i];
        if Delinquent(page[i], rewarded) {
          list := list + [page[i]];
        }
      }
      assert page[..|page|] == page && pages[..c + 1][..c] == pages[..c];
      DelinquentsSplit(Flatten(pages[..c]), page, rewarded);
    }
    assert pages[..|pages|] == pages;
    list := SortBy(list, ByStake());
    DigestListIs(pages, rewarded);
  }

  lemma {:induction false} DelinquentsAre(rows: seq<OrchRow>, rewarded: set<Address>, row: OrchRow)
    ensures row in DelinquentsOf(rows, rewarded) <==> row in rows && Delinquent(row, rewarded)
  {
    if rows != [] {
      DelinquentsAre(rows[..|rows| - 1], rewarded, row);
    }
  }
}
