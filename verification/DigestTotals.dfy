/** What one digest adds up (notify/embed.rs): per gateway, in total, and the median price. */
module DigestTotals {
  import opened Sequences
  import opened Wrappers
  import opened Sorting
  import T = Tickets
  import opened DigestJobs

  /** The sender of a ticket; a missing address counts as the empty one. */
  function Gateway(e: Stored): Address {
    if e.row.fromAddress.Some? then e.row.fromAddress.value else ""
  }

  datatype Line = Line(count: nat, eth: real)

  function SumEth(tickets: seq<Stored>): real {
    if tickets == [] then 0.0 else SumEth(tickets[..|tickets| - 1]) + tickets[|tickets| - 1].row.amountNative
  }

  /** The priced tickets' total, and how many they are. */
  function SumUsd(tickets: seq<Stored>): (real, nat) {
    if tickets == [] then (0.0, 0)
    else
      var (usd, n) := SumUsd(tickets[..|tickets| - 1]);
      var last := tickets[|tickets| - 1].row.amountUsd;
      if T.Positive(last) then (usd + last.value, n + 1) else (usd, n)
  }

  /** What the tickets of one gateway come to. */
  function LineOf(tickets: seq<Stored>, gateway: Address): Line {
    if tickets == [] then Line(0, 0.0)
    else
      var l := LineOf(tickets[..|tickets| - 1], gateway);
      var last := tickets[|tickets| - 1];
      if Gateway(last) == gateway then Line(l.count + 1, l.eth + last.row.amountNative) else l
  }

  /** The sums of one list after another are the sums of the lists. */
  lemma {:induction false} SumsSplit(a: seq<Stored>, b: seq<Stored>, g: Address)
    ensures SumEth(a + b) == SumEth(a) + SumEth(b)
    ensures SumUsd(a + b) == (SumUsd(a).0 + SumUsd(b).0, SumUsd(a).1 + SumUsd(b).1)
    ensures LineOf(a + b, g) == Line(LineOf(a, g).count + LineOf(b, g).count, LineOf(a, g).eth + LineOf(b, g).eth)
    decreases |b|
  {
    if b == [] {
      assert a + b == a;
    } else {
      assert (a + b)[..|a + b| - 1] == a + b[..|b| - 1];
      SumsSplit(a, b[..|b| - 1], g);
    }
  }

  /** One ticket counts its face value, its USD value if that is above zero, and one ticket of its own gateway. */
  lemma SumsOfOne(e: Stored, g: Address)
    ensures SumEth([e]) == e.row.amountNative
    ensures SumUsd([e])
      == if e.row.amountUsd.Some? && e.row.amountUsd.value > 0.0 then (e.row.amountUsd.value, 1) else (0.0, 0)
    ensures LineOf([e], g)
      == if e.row.fromAddress == Some(g) || (e.row.fromAddress.None? && g == "") then Line(1, e.row.amountNative)
         else Line(0, 0.0)
  {
    assert [e][..0] == [];
  }

  // ---- the price of a ticket ------------------------------------------------------------------------

  /** A price of 100 dollars or less is taken for a mistake. */
  function Plausible(price: Option<real>): Option<real> {
    if price.Some? && price.value > 100.0 then price else None
  }

  /** What the ticket's two amounts say one ETH costs. */
  function Derived(eth: real, usd: Option<real>): Option<real> {
    if usd.Some? && eth > 0.0 then Plausible(Some(usd.value / eth)) else None
  }

  function Larger(x: real, y: real): real {
    if x >= y then x else y
  }

  function Distance(x: real, y: real): real {
    if x >= y then x - y else y - x
  }

  /** The branches in the order of the source: close enough, apart, one of the two, neither. */
  function SanePrice(price: Option<real>, eth: real, usd: Option<real>): Option<real> {
    match (Plausible(price), Derived(eth, usd))
    case (Some(direct), Some(derived)) =>
      if Distance(direct, derived) / Larger(derived, 1.0) <= 0.2 then Some(derived) else Some(derived)
    case (Some(direct), None) => Some(direct)
    case (None, Some(derived)) => Some(derived)
    case (None, None) => None
  }

  /**
    The tolerance of a fifth decides nothing: when the ticket's own amounts give more than 100 dollars, theirs is
    the price, however far the explorer's is from it; otherwise it is the explorer's, if that is more than 100.
  */
  lemma SanePriceExactly(price: Option<real>, eth: real, usd: Option<real>)
    ensures var own := usd.Some? && eth > 0.0 && usd.value > 100.0 * eth;
      && (SanePrice(price, eth, usd).Some? <==> own || (price.Some? && price.value > 100.0))
      && (own ==> SanePrice(price, eth, usd).value * eth == usd.value)
      && (!own && SanePrice(price, eth, usd).Some? ==> SanePrice(price, eth, usd) == price)
      && (SanePrice(price, eth, usd).Some? ==> SanePrice(price, eth, usd).value > 100.0)
  {
    if usd.Some? && eth > 0.0 {
      assert usd.value / eth * eth == usd.value;
    }
  }

  function PriceOf(t: Stored): Option<real> {
    SanePrice(t.row.nativeUsdPrice, t.row.amountNative, if T.Positive(t.row.amountUsd) then t.row.amountUsd else None)
  }

  /** The prices of the tickets that have one, in order. */
  function PricesOf(tickets: seq<Stored>): seq<real> {
    if tickets == [] then []
    else
      var p := PriceOf(tickets[|tickets| - 1]);
      PricesOf(tickets[..|tickets| - 1]) + if p.Some? then [p.value] else []
  }

  /** Which prices the median is taken of: the sane price of each ticket that has one, in order. */
  lemma {:induction false} PricesSplit(a: seq<Stored>, b: seq<Stored>)
    ensures PricesOf(a + b) == PricesOf(a) + PricesOf(b)
    decreases |b|
  {
    if b == [] {
      assert a + b == a;
    } else {
      assert (a + b)[..|a + b| - 1] == a + b[..|b| - 1];
      PricesSplit(a, b[..|b| - 1]);
    }
  }

  lemma PriceOfOne(e: Stored)
    ensures var own := e.row.amountUsd.Some? && e.row.amountUsd.value > 0.0 && e.row.amountNative > 0.0
        && e.row.amountUsd.value > 100.0 * e.row.amountNative;
      && |PricesOf([e])| == (if own || (e.row.nativeUsdPrice.Some? && e.row.nativeUsdPrice.value > 100.0) then 1 else 0)
      && (own ==> PricesOf([e])[0] * e.row.amountNative == e.row.amountUsd.value)
      && (!own && PricesOf([e]) != [] ==> PricesOf([e])[0] == e.row.nativeUsdPrice.value)
  {
    assert [e][..0] == [];
    SanePriceExactly(e.row.nativeUsdPrice, e.row.amountNative,
      if T.Positive(e.row.amountUsd) then e.row.amountUsd else None);
  }

  // ---- the sums ---------------------------------------------------------------------------------------

  datatype Totals = Totals(eth: real, usd: real, priced: nat, prices: seq<real>, byGateway: map<Address, Line>)

  /** The running sums with one more ticket. */
  function Add(s: Totals, t: Stored): Totals {
    var priced := T.Positive(t.row.amountUsd);
    var l := if Gateway(t) in s.byGateway then s.byGateway[Gateway(t)] else Line(0, 0.0);
    var p := PriceOf(t);
    Totals(s.eth + t.row.amountNative,
      if priced then s.usd + t.row.amountUsd.value else s.usd, if priced then s.priced + 1 else s.priced,
      s.prices + if p.Some? then [p.value] else [],
      s.byGateway[Gateway(t) := Line(l.count + 1, l.eth + t.row.amountNative)])
  }

  ghost predicate Sends(tickets: seq<Stored>, g: Address) {
    exists e :: e in tickets && Gateway(e) == g
  }

  /** The sums are those of `tickets`: in total, over the priced ones, and for each gateway that sent one. */
  ghost predicate SumsUp(tickets: seq<Stored>, s: Totals) {
    && s.eth == SumEth(tickets) && (s.usd, s.priced) == SumUsd(tickets) && s.prices == PricesOf(tickets)
    && (forall g :: g in s.byGateway <==> Sends(tickets, g))
    && (forall g :: LineOf(tickets, g) == if g in s.byGateway then s.byGateway[g] else Line(0, 0.0))
  }

  lemma OneMoreLine(tickets: seq<Stored>, t: Stored, s: Totals, g: Address)
    requires SumsUp(tickets, s)
    ensures g in Add(s, t).byGateway <==> Sends(tickets + [t], g)
    ensures LineOf(tickets + [t], g) == if g in Add(s, t).byGateway then Add(s, t).byGateway[g] else Line(0, 0.0)
  {
    assert (tickets + [t])[..|tickets|] == tickets;
    if g == Gateway(t) {
      assert t in tickets + [t];
    } else if Sends(tickets, g) {
      var e :| e in tickets && Gateway(e) == g;
      assert e in tickets + [t];
    }
  }

  lemma SumsOneMore(tickets: seq<Stored>, t: Stored, s: Totals)
    requires SumsUp(tickets, s)
    ensures SumsUp(tickets + [t], Add(s, t))
  {
    assert (tickets + [t])[..|tickets|] == tickets;
    forall g {
      OneMoreLine(tickets, t, s, g);
    }
  }

  /** The loop's variables after the first `i` tickets. */
  function Running(tickets: seq<Stored>, i: nat): Totals
    requires i <= |tickets|
    decreases i
  {
    if i == 0 then Totals(0.0, 0.0, 0, [], map[]) else Add(Running(tickets, i - 1), tickets[i - 1])
  }

  lemma {:induction false} RunningSumsUp(tickets: seq<Stored>, i: nat)
    requires i <= |tickets|
    ensures SumsUp(tickets[..i], Running(tickets, i))
    decreases i
  {
    if i > 0 {
      RunningSumsUp(tickets, i - 1);
      assert tickets[..i] == tickets[..i - 1] + [tickets[i - 1]];
      SumsOneMore(tickets[..i - 1], tickets[i - 1], Running(tickets, i - 1));
    }
  }

  function Ascending(): (real, real) -> bool {
    (a: real, b: real) => a <= b
  }

  function Median(prices: seq<real>): Option<real> {
    if prices == [] then None else Some(SortBy(prices, Ascending())[|prices| / 2])
  }

  method Aggregate(tickets: seq<Stored>)
    returns (eth: real, usd: Option<real>, price: Option<real>, byGateway: map<Address, Line>)
    ensures eth == SumEth(tickets)
    ensures usd == if SumUsd(tickets).1 > 0 then Some(SumUsd(tickets).0) else None
    ensures price == Median(PricesOf(tickets))
    ensures forall g :: g in byGateway <==> Sends(tickets, g)
    ensures forall g | g in byGateway :: byGateway[g] == LineOf(tickets, g)
  {
    eth, byGateway := 0.0, map[];
    var sumUsd, priced, prices := 0.0, 0, [];
    for i := 0 to |tickets|
      invariant Totals(eth, sumUsd, priced, prices, byGateway) == Running(tickets, i)
    {
      var t := tickets[i];
      eth := eth + t.row.amountNative;
      if T.Positive(t.row.amountUsd) {
        sumUsd, priced := sumUsd + t.row.amountUsd.value, priced + 1;
      }
      var p := PriceOf(t);
      if p.Some? {
        prices := prices + [p.value];
      }
      var g := Gateway(t);
      var entry := if g in byGateway then byGateway[g] else Line(0, 0.0);
      byGateway := byGateway[g := Line(entry.count + 1, entry.eth + t.row.amountNative)];
    }
    RunningSumsUp(tickets, |tickets|);
    assert tickets[..|tickets|] == tickets;
    usd, price := if priced > 0 then Some(sumUsd) else None, Median(prices);
  }

  /** The lines of the listed gateways, added up. */
  function Total(tickets: seq<Stored>, gateways: seq<Address>): Line {
    if gateways == [] then Line(0, 0.0)
    else
      var t, l := Total(tickets, gateways[..|gateways| - 1]), LineOf(tickets, gateways[|gateways| - 1]);
      Line(t.count + l.count, t.eth + l.eth)
  }

  lemma {:induction false} OneMoreTicket(tickets: seq<Stored>, gateways: seq<Address>)
    requires tickets != [] && Distinct(gateways)
    ensures var last, before := tickets[|tickets| - 1], Total(tickets[..|tickets| - 1], gateways);
      Total(tickets, gateways)
        == if Gateway(last) in gateways then Line(before.count + 1, before.eth + last.row.amountNative) else before
    decreases |gateways|
  {
    if gateways != [] {
      var init, g := gateways[..|gateways| - 1], gateways[|gateways| - 1];
      OneMoreTicket(tickets, init);
      assert gateways == init + [g];
      assert g !in init;
    }
  }

  /** The per-gateway lines of a digest sum back to its ticket count and its total, in any listing of the gateways. */
  lemma {:induction false} GatewaysSumBack(tickets: seq<Stored>, gateways: seq<Address>)
    requires Distinct(gateways) && forall e | e in tickets :: Gateway(e) in gateways
    ensures Total(tickets, gateways) == Line(|tickets|, SumEth(tickets))
    decreases |tickets|
  {
    if tickets == [] {
      NothingTotals(gateways);
    } else {
      GatewaysSumBack(tickets[..|tickets| - 1], gateways);
      OneMoreTicket(tickets, gateways);
    }
  }

  lemma {:induction false} NothingTotals(gateways: seq<Address>)
    ensures Total([], gateways) == Line(0, 0.0)
    decreases |gateways|
  {
    if gateways != [] {
      NothingTotals(gateways[..|gateways| - 1]);
    }
  }

  // ---- the gateways shown --------------------------------------------------------------------------

  function ByEth(): ((Address, Line), (Address, Line)) -> bool {
    (a: (Address, Line), b: (Address, Line)) => a.1.eth >= b.1.eth
  }

  function TopThree(lines: seq<(Address, Line)>): seq<(Address, Line)> {
    var sorted := SortBy(lines, ByEth());
    if |sorted| <= 3 then sorted else sorted[..3]
  }

  lemma CutLeaves<T>(s: seq<T>, t: seq<T>, k: nat)
    requires k <= |t| && multiset(s) == multiset(t)
    ensures multiset(t[..k]) <= multiset(s) && multiset(s) - multiset(t[..k]) == multiset(t[k..])
  {
    assert t == t[..k] + t[k..];
  }

  /** They are shown with the highest first. */
  lemma HighestFirst(lines: seq<(Address, Line)>, i: nat, j: nat)
    requires i < j < |TopThree(lines)|
    ensures TopThree(lines)[i].1.eth >= TopThree(lines)[j].1.eth
  {
    SortBySorts(lines, ByEth());
    assert ByEth()(SortBy(lines, ByEth())[i], SortBy(lines, ByEth())[j]);
  }

  /** No gateway left out paid more than one that is shown; three are shown, or all. */
  lemma TopThreeAreTop(lines: seq<(Address, Line)>)
    ensures |TopThree(lines)| == if |lines| <= 3 then |lines| else 3
    ensures multiset(TopThree(lines)) <= multiset(lines)
    ensures forall x, y | x in TopThree(lines) && y in multiset(lines) - multiset(TopThree(lines)) :: x.1.eth >= y.1.eth
  {
    var sorted := SortBy(lines, ByEth());
    if |sorted| > 3 {
      CutLeaves(lines, sorted, 3);
      forall x, y | x in sorted[..3] && y in multiset(sorted[3..]) ensures x.1.eth >= y.1.eth {
        SortBySorts(lines, ByEth());
        SortedCut(sorted, 3, ByEth());
        assert y in sorted[3..] && ByEth()(x, y);
      }
    }
  }

  // ---- the median price -----------------------------------------------------------------------------

  /** The prices split into half of them, rounded down, no higher than the median and the rest no lower. */
  lemma MedianIsMiddle(prices: seq<real>) returns (low: seq<real>, high: seq<real>)
    requires prices != []
    ensures Median(prices).value in prices
    ensures multiset(prices) == multiset(low) + multiset(high) && |low| == |prices| / 2
    ensures (forall x | x in low :: x <= Median(prices).value) && (forall x | x in high :: Median(prices).value <= x)
  {
    var sorted, k := SortBy(prices, Ascending()), |prices| / 2;
    SortBySorts(prices, Ascending());
    low, high := sorted[..k], sorted[k..];
    var m := sorted[k];
    assert m in multiset(prices) && m in high && high[0] == m;
    SortedCut(sorted, k, Ascending());
    forall x | x in low ensures x <= m {
      assert Ascending()(x, m);
    }
    forall x | x in high ensures m <= x {
      var j :| 0 <= j < |high| && high[j] == x;
      assert j > 0 ==> Ascending()(sorted[k], sorted[k + j]);
    }
  }
}
