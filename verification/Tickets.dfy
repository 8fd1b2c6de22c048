/** The `events` table of state/repo.rs: insertion, valuation repair and the sent flag, statement by statement. */
module Tickets {
  import opened Wrappers

  // ---- valuations (explorer/types.rs) ------------------------------------------------

  datatype Valuation = Valuation(status: string, amountUsd: Option<real>, nativeUsdPrice: Option<real>)

  predicate Positive(x: Option<real>) {
    x.Some? && x.value > 0.0
  }

  function StatusRank(status: string): int {
    if status == "priced" then 3 else if status == "priced_with_warning" then 2 else 1
  }

  /** The lexicographic key (status, priced in USD, priced per native unit) as one number. */
  function Preference(v: Valuation): int {
    4 * StatusRank(v.status) + (if Positive(v.amountUsd) then 2 else 0) + (if Positive(v.nativeUsdPrice) then 1 else 0)
  }

  predicate OutranksStatus(a: string, b: string) {
    a != b && (a == "priced" || (a == "priced_with_warning" && b != "priced"))
  }

  predicate IsAboveZero(x: Option<real>) {
    match x case Some(v) => v > 0.0 case None => false
  }

  /**
    A valuation is preferred for its status, "priced" before "priced_with_warning" before anything else; of equal
    status for a USD value above zero; then for a price above zero. Otherwise the two tie.
  */
  lemma PreferenceExactly(v: Valuation, w: Valuation)
    ensures Preference(v) > Preference(w) <==>
      || OutranksStatus(v.status, w.status)
      || (!OutranksStatus(w.status, v.status) && IsAboveZero(v.amountUsd) && !IsAboveZero(w.amountUsd))
      || (!OutranksStatus(w.status, v.status) && (IsAboveZero(v.amountUsd) <==> IsAboveZero(w.amountUsd))
          && IsAboveZero(v.nativeUsdPrice) && !IsAboveZero(w.nativeUsdPrice))
  {
  }

  /** The library's maximum by key: of several maxima, the last. */
  function Preferred(vs: seq<Valuation>): Option<Valuation> {
    if vs == [] then None
    else
      var last := vs[|vs| - 1];
      match Preferred(vs[..|vs| - 1])
      case None => Some(last)
      case Some(best) => if Preference(last) >= Preference(best) then Some(last) else Some(best)
  }

  lemma {:induction false} PreferredIsLastMaximum(vs: seq<Valuation>) returns (i: nat)
    requires vs != []
    ensures i < |vs| && Preferred(vs) == Some(vs[i])
    ensures forall j | 0 <= j < |vs| :: Preference(vs[j]) <= Preference(vs[i])
    ensures forall j | i < j < |vs| :: Preference(vs[j]) < Preference(vs[i])
  {
    var init := vs[..|vs| - 1];
    i := |vs| - 1;
    if init != [] {
      var k := PreferredIsLastMaximum(init);
      assert forall j | 0 <= j < |init| :: init[j] == vs[j];
      if Preference(vs[i]) < Preference(vs[k]) {
        i := k;
      }
    }
  }

  // ---- the table ---------------------------------------------------------------------

  type Id = string
  type Address = string

  /** A ticket as the explorer lists it. */
  datatype Listing = Listing(
    id: Id, eventName: string, timestamp: int, fromAddress: Option<Address>, toAddress: Option<Address>,
    amountNative: real, valuations: Option<seq<Valuation>>)

  /** A ticket as `insert_event` binds it: its valuations reduced to the preferred one. */
  datatype Entry = Entry(
    id: Id, eventName: string, timestamp: int, fromAddress: Option<Address>, toAddress: Option<Address>,
    amountNative: real, amountUsd: Option<real>, nativeUsdPrice: Option<real>)

  function Bound(l: Listing): Entry {
    var v := if l.valuations.Some? then Preferred(l.valuations.value) else None;
    Entry(l.id, l.eventName, l.timestamp, l.fromAddress, l.toAddress, l.amountNative,
      if v.Some? then v.value.amountUsd else None, if v.Some? then v.value.nativeUsdPrice else None)
  }

  /** An entry with its first valuation, whatever its rank. */
  function FirstBound(l: Listing): Entry {
    var v := if l.valuations.Some? && l.valuations.value != [] then Some(l.valuations.value[0]) else None;
    Entry(l.id, l.eventName, l.timestamp, l.fromAddress, l.toAddress, l.amountNative,
      if v.Some? then v.value.amountUsd else None, if v.Some? then v.value.nativeUsdPrice else None)
  }

  datatype Row = Row(
    eventName: string, timestamp: int, fromAddress: Option<Address>, toAddress: Option<Address>,
    amountNative: real, amountUsd: Option<real>, nativeUsdPrice: Option<real>, sent: bool)

  type Table = map<Id, Row>

  function NewRow(e: Entry): Row {
    Row(e.eventName, e.timestamp, e.fromAddress, e.toAddress, e.amountNative, e.amountUsd, e.nativeUsdPrice, false)
  }

  function InsertOrIgnore(t: Table, e: Entry): Table {
    if e.id in t then t else t[e.id := NewRow(e)]
  }

  /** A positive candidate fills a field that holds nothing positive; anything else leaves it. */
  function Fill(field: Option<real>, candidate: Option<real>): Option<real> {
    if Positive(candidate) && !Positive(field) then candidate else field
  }

  function Repair(t: Table, id: Id, usd: Option<real>, price: Option<real>): Table {
    if id in t && !t[id].sent
    then t[id := t[id].(amountUsd := Fill(t[id].amountUsd, usd), nativeUsdPrice := Fill(t[id].nativeUsdPrice, price))]
    else t
  }

  function InsertEvent(t: Table, e: Entry): Table {
    var t' := InsertOrIgnore(t, e);
    if e.amountUsd.Some? || e.nativeUsdPrice.Some? then Repair(t', e.id, e.amountUsd, e.nativeUsdPrice) else t'
  }

  function MarkSent(t: Table, ids: set<Id>): Table {
    map id | id in t :: if id in ids then t[id].(sent := true) else t[id]
  }

  // ---- the valuation of a row over any history ------------------------------------------

  datatype Op =
    | Insert(entry: Entry)
    | RepairOp(id: Id, usd: Option<real>, price: Option<real>)
    | Mark(ids: set<Id>)

  function ApplyOp(t: Table, op: Op): Table {
    match op
    case Insert(e) => InsertEvent(t, e)
    case RepairOp(id, usd, price) => Repair(t, id, usd, price)
    case Mark(ids) => MarkSent(t, ids)
  }

  function ApplyOps(t: Table, ops: seq<Op>): Table
    decreases |ops|
  {
    if ops == [] then t else ApplyOps(ApplyOp(t, ops[0]), ops[1..])
  }

  /** The candidates for one field of row `id` that a history offers before the row is marked sent. */
  function Offers(ops: seq<Op>, id: Id, usd: bool): seq<Option<real>> {
    if ops == [] then []
    else
      match ops[0]
      case Insert(e) =>
        (if e.id == id then [if usd then e.amountUsd else e.nativeUsdPrice] else []) + Offers(ops[1..], id, usd)
      case RepairOp(i, u, p) => (if i == id then [if usd then u else p] else []) + Offers(ops[1..], id, usd)
      case Mark(ids) => if id in ids then [] else Offers(ops[1..], id, usd)
  }

  /** The starting value if positive, else the first positive offer, else the starting value. */
  function FirstPositive(start: Option<real>, offers: seq<Option<real>>): Option<real> {
    if Positive(start) then start
    else if offers == [] then start
    else if Positive(offers[0]) then offers[0]
    else FirstPositive(start, offers[1..])
  }

  lemma OpOnRow(t: Table, op: Op, id: Id)
    requires id in t
    ensures var u := ApplyOp(t, op);
      && id in u && (t[id].sent ==> u[id] == t[id])
      && u[id].(amountUsd := None, nativeUsdPrice := None, sent := false)
        == t[id].(amountUsd := None, nativeUsdPrice := None, sent := false)
      && (u[id].sent <==> t[id].sent || (op.Mark? && id in op.ids))
      && (!t[id].sent ==>
            match op
            case Insert(e) => e.id == id ==>
              u[id].amountUsd == Fill(t[id].amountUsd, e.amountUsd)
                && u[id].nativeUsdPrice == Fill(t[id].nativeUsdPrice, e.nativeUsdPrice)
            case RepairOp(i, usd, price) => i == id ==>
              u[id].amountUsd == Fill(t[id].amountUsd, usd) && u[id].nativeUsdPrice == Fill(t[id].nativeUsdPrice, price)
            case Mark(_) => u[id].amountUsd == t[id].amountUsd && u[id].nativeUsdPrice == t[id].nativeUsdPrice)
      && ((op.Insert? && op.entry.id != id) || (op.RepairOp? && op.id != id) ==> u[id] == t[id])
  {
  }

  /**
    Over any interleaving of insertions, repairs and markings, each valuation field of a row is its
    starting value if positive, else the first positive candidate offered while the row was unsent,
    else its starting value; once sent, a row is frozen.
  */
  lemma {:induction false} ValuationFold(t: Table, ops: seq<Op>, id: Id)
    requires id in t
    decreases |ops|
    ensures id in ApplyOps(t, ops)
    ensures t[id].sent ==> ApplyOps(t, ops)[id] == t[id]
    ensures !t[id].sent ==>
      && ApplyOps(t, ops)[id].amountUsd == FirstPositive(t[id].amountUsd, Offers(ops, id, true))
      && ApplyOps(t, ops)[id].nativeUsdPrice == FirstPositive(t[id].nativeUsdPrice, Offers(ops, id, false))
  {
    if ops != [] {
      var u := ApplyOp(t, ops[0]);
      OpOnRow(t, ops[0], id);
      ValuationFold(u, ops[1..], id);
      if !t[id].sent {
        FieldStep(t[id].amountUsd, ops, id, true);
        FieldStep(t[id].nativeUsdPrice, ops, id, false);
      }
    }
  }

  /** One operation on one field, seen from the reference. */
  lemma FieldStep(field: Option<real>, ops: seq<Op>, id: Id, usd: bool)
    requires ops != []
    ensures match ops[0]
      case Insert(e) => FirstPositive(field, Offers(ops, id, usd))
        == FirstPositive(
             if e.id == id then Fill(field, if usd then e.amountUsd else e.nativeUsdPrice) else field,
             Offers(ops[1..], id, usd))
      case RepairOp(i, u, p) => FirstPositive(field, Offers(ops, id, usd))
        == FirstPositive(if i == id then Fill(field, if usd then u else p) else field, Offers(ops[1..], id, usd))
      case Mark(ids) =>
        FirstPositive(field, Offers(ops, id, usd))
        == if id in ids then field else FirstPositive(field, Offers(ops[1..], id, usd))
  {
    var rest := Offers(ops[1..], id, usd);
    match ops[0] {
      case Insert(e) => OfferStep(field, if usd then e.amountUsd else e.nativeUsdPrice, rest); assert [] + rest == rest;
      case RepairOp(i, u, p) => OfferStep(field, if usd then u else p, rest); assert [] + rest == rest;
      case Mark(_) =>
    }
  }

  lemma {:induction false} OfferStep(field: Option<real>, offer: Option<real>, rest: seq<Option<real>>)
    ensures FirstPositive(field, [offer] + rest) == FirstPositive(Fill(field, offer), rest)
  {
    assert ([offer] + rest)[1..] == rest;
    if !Positive(field) && !Positive(offer) {
    } else if Positive(field) {
    } else {
      assert Positive(offer);
    }
  }

  // ---- refreshing a fetched event (digest_poster.rs) --------------------------------------

  predicate ValuationMissing(row: Row) {
    !Positive(row.amountUsd) || !Positive(row.nativeUsdPrice)
  }

  /** A fetched ticket is looked up again unless both of its valuations are above zero. */
  lemma MissingExactly(row: Row)
    ensures ValuationMissing(row) <==> !(IsAboveZero(row.amountUsd) && IsAboveZero(row.nativeUsdPrice))
  {
  }

  /** What the explorer knows of a ticket when it is looked up again. */
  datatype Quote = Quote(usd: Option<real>, price: Option<real>)

  /** The poster's copy of an event after a repair that reached the table. */
  function RefreshedCopy(copy: Row, quote: Quote): Row {
    copy.(amountUsd := if Positive(quote.usd) then quote.usd else copy.amountUsd,
          nativeUsdPrice := if Positive(quote.price) then quote.price else copy.nativeUsdPrice)
  }

  /** Whether the refresh changes anything: the ticket was found and its row is still pending. */
  predicate Reaches(t: Table, id: Id, found: Option<Quote>) {
    found.Some? && id in t && !t[id].sent
  }

  function RefreshTable(t: Table, id: Id, found: Option<Quote>): Table {
    if Reaches(t, id, found) then Repair(t, id, found.value.usd, found.value.price) else t
  }

  function RefreshCopy(t: Table, id: Id, copy: Row, found: Option<Quote>): Row {
    if Reaches(t, id, found) then RefreshedCopy(copy, found.value) else copy
  }

  method RefreshEventValuation(t: Table, id: Id, copy: Row, found: Option<Quote>) returns (t': Table, copy': Row)
    ensures t' == RefreshTable(t, id, found) && copy' == RefreshCopy(t, id, copy, found)
  {
    t', copy' := t, copy;
    if found.None? {
      return;
    }
    var usd, price := found.value.usd, found.value.price;
    var updated := id in t && !t[id].sent;
    t' := Repair(t, id, usd, price);
    if updated {
      if Positive(usd) {
        copy' := copy'.(amountUsd := usd);
      }
      if Positive(price) {
        copy' := copy'.(nativeUsdPrice := price);
      }
    }
  }

  /** The copy takes each offered value above zero, if the ticket was found and its row is pending; nothing else. */
  lemma RefreshedCopyExactly(t: Table, id: Id, copy: Row, found: Option<Quote>)
    ensures var copy' := RefreshCopy(t, id, copy, found);
      && copy'.(amountUsd := None, nativeUsdPrice := None) == copy.(amountUsd := None, nativeUsdPrice := None)
      && (found.None? || id !in t || t[id].sent ==> copy' == copy)
      && (found.Some? && id in t && !t[id].sent ==>
            && (IsAboveZero(found.value.usd) ==> copy'.amountUsd == found.value.usd)
            && (!IsAboveZero(found.value.usd) ==> copy'.amountUsd == copy.amountUsd)
            && (IsAboveZero(found.value.price) ==> copy'.nativeUsdPrice == found.value.price)
            && (!IsAboveZero(found.value.price) ==> copy'.nativeUsdPrice == copy.nativeUsdPrice))
  {
  }

  /** Only the row of that ticket can change, and only in its valuations. */
  lemma RefreshKeepsOtherRows(t: Table, id: Id, found: Option<Quote>, other: Id)
    ensures var t' := RefreshTable(t, id, found);
      && t'.Keys == t.Keys
      && (other in t && other != id ==> t'[other] == t[other])
      && (id in t ==>
            t'[id].(amountUsd := None, nativeUsdPrice := None) == t[id].(amountUsd := None, nativeUsdPrice := None))
  {
  }

  /**
    One field of the row and of the copy once the ticket was looked up: a positive offer reaches both
    unless the row already holds another positive value, and without one both stay as they were.
  */
  predicate FieldAgrees(row: Option<real>, copy: Option<real>, offer: Option<real>) {
    if Positive(offer) then !Positive(row) || row == offer else row == copy
  }

  /**
    Whatever the copy says, and it may be out of date, since the poller may have repaired the row after
    it was fetched: after the refresh each field of row and copy agree exactly as `FieldAgrees` has it,
    or as before if the ticket was not found.
  */
  lemma RefreshAgreesExactly(t: Table, id: Id, copy: Row, found: Option<Quote>)
    requires id in t
    ensures var row, row', copy' := t[id], RefreshTable(t, id, found)[id], RefreshCopy(t, id, copy, found);
      && (row'.amountUsd == copy'.amountUsd
          <==> if Reaches(t, id, found) then FieldAgrees(row.amountUsd, copy.amountUsd, found.value.usd)
               else row.amountUsd == copy.amountUsd)
      && (row'.nativeUsdPrice == copy'.nativeUsdPrice
          <==> if Reaches(t, id, found) then FieldAgrees(row.nativeUsdPrice, copy.nativeUsdPrice, found.value.price)
               else row.nativeUsdPrice == copy.nativeUsdPrice)
  {
  }

  /** A copy that is current disagrees afterwards only where a positive field is offered another positive value. */
  lemma CurrentCopyAgrees(t: Table, id: Id, found: Option<Quote>)
    requires id in t
    ensures RefreshTable(t, id, found)[id] != RefreshCopy(t, id, t[id], found)
      <==> && Reaches(t, id, found)
           && ((Positive(t[id].amountUsd) && Positive(found.value.usd) && found.value.usd != t[id].amountUsd)
               || (Positive(t[id].nativeUsdPrice) && Positive(found.value.price)
                 && found.value.price != t[id].nativeUsdPrice))
  {
  }

  /**
    The row was repaired to 5 after the poster had fetched it without a value: looked up without a
    valuation, the copy stays empty; looked up with 6, the copy becomes 6 and the row stays 5.
  */
  lemma StaleCopyDisagrees(id: Id, copy: Row, price: Option<real>)
    requires copy.amountUsd.None? && !copy.sent
    ensures var t := map[id := copy.(amountUsd := Some(5.0))];
      && RefreshTable(t, id, Some(Quote(None, price)))[id].amountUsd == Some(5.0)
      && RefreshCopy(t, id, copy, Some(Quote(None, price))).amountUsd == None
      && RefreshTable(t, id, Some(Quote(Some(6.0), price)))[id].amountUsd == Some(5.0)
      && RefreshCopy(t, id, copy, Some(Quote(Some(6.0), price))).amountUsd == Some(6.0)
  {
  }
}
