/** The customer consolidation pass (`create_customers_from_legacy`) as a
    pure fold over the distinct full names: for each name, one new
    `EmailCustomers` row and then one `EmailCustomers_LegacyEmailOrders`
    link per legacy order of that name. The store is replaced by the list
    of insert events it would receive, and the ids it hands back
    (`lastrowid`) by a sequence of ids given to the pass, one per name. */
module Consolidation {
  import opened Optional
  import opened Seqs
  import opened Names
  import opened Emails
  import opened Decimal
  import opened LegacyOrders

  /** A new `EmailCustomers` row. */
  datatype EmailCustomer = EmailCustomer(
    title: Option<string>,
    givenName: string,
    surname: string,
    suffix: Option<string>,
    email: Option<string>,
    created: Date,
    createdBy: string,
    lastModified: Date,
    lastModifiedBy: string)

  /** A new `EmailCustomers_LegacyEmailOrders` row. */
  datatype CustomerOrderLink = CustomerOrderLink(
    emailCustomerId: int,
    emailOrderId: int,
    nameNeedsReview: bool,
    emailNeedsReview: bool,
    conversionNotes: Option<string>)

  /** One insert sent to the store; a customer insert carries the id the
      store assigned to it. */
  datatype InsertEvent =
    | InsertCustomer(customerId: int, customer: EmailCustomer)
    | InsertLink(link: CustomerOrderLink)

  /** One distinct non-empty `FullName` with its legacy orders in fetch
      order. The name was read from the orders themselves, so a first
      order always exists: it is the row `fetchone` returns, and the later
      ones are those the loop reads after it. */
  datatype NameGroup = NameGroup(fullName: string, firstOrder: LegacyOrderRow, laterOrders: seq<LegacyOrderRow>)
  {
    function Orders(): (rows: seq<LegacyOrderRow>)
      ensures |rows| == 1 + |laterOrders|
    {
      [firstOrder] + laterOrders
    }
  }

  const NotePrefix: string := "Email was changed in order ids: "

  /** The conversion note shared by all links of a name: absent when no
      change of `Email1` was seen, otherwise the changed order ids. */
  function ConversionNote(changed: seq<int>): (r: Option<string>)
    ensures r.None? <==> |changed| == 0
    ensures r.Some? ==> |r.value| > |NotePrefix| && r.value[..|NotePrefix|] == NotePrefix
  {
    if |changed| > 0 then Some(NotePrefix + IdListText(changed)) else None
  }

  /** Reads the order ids back out of a conversion note. */
  function ReadConversionNote(note: Option<string>): Option<seq<int>>
  {
    match note
    case None => Some([])
    case Some(t) =>
      if |t| >= |NotePrefix| && t[..|NotePrefix|] == NotePrefix then ReadIntList(t[|NotePrefix|..])
      else None
  }

  /** The note loses nothing: it lists every changed order id, in order. */
  lemma ConversionNoteRoundTrip(changed: seq<int>)
    ensures ReadConversionNote(ConversionNote(changed)) == Some(changed)
  {
    if |changed| > 0 {
      var t := NotePrefix + IdListText(changed);
      assert t[|NotePrefix|..] == IdListText(changed);
      ReadIdListText(changed);
    }
  }

  /** The links of one customer, one per order id, in order. */
  function LinkEvents(customerId: int, orderIds: seq<int>, nameNeedsReview: bool,
                      emailNeedsReview: bool, note: Option<string>): (r: seq<InsertEvent>)
    ensures |r| == |orderIds|
    ensures forall j :: 0 <= j < |orderIds| ==>
              r[j] == InsertLink(CustomerOrderLink(customerId, orderIds[j], nameNeedsReview, emailNeedsReview, note))
  {
    if |orderIds| == 0 then []
    else
      [InsertLink(CustomerOrderLink(customerId, orderIds[0], nameNeedsReview, emailNeedsReview, note))]
      + LinkEvents(customerId, orderIds[1..], nameNeedsReview, emailNeedsReview, note)
  }

  /** The body of the per-name loop: parse the name, aggregate its orders,
      insert the customer under the id the store assigns, then link every
      order to it. */
  function NameEvents(g: NameGroup, updateUser: string, customerId: int): (r: seq<InsertEvent>)
    ensures |r| == 1 + |g.Orders()|
    ensures r[0].InsertCustomer? && r[0].customerId == customerId
  {
    var parsed := ParseFullname(g.fullName);
    var info := CustomerInfoFromLegacyOrders(g.Orders());
    var customer := EmailCustomer(
      parsed.title, parsed.givenName, parsed.surname, parsed.suffix,
      if |info.email| == 0 then None else Some(info.email[0]),
      info.firstOrderDate.GetOr(Epoch), updateUser,
      info.lastOrderDate.GetOr(Epoch), updateUser);
    [InsertCustomer(customerId, customer)]
    + LinkEvents(customerId, info.orderIds, parsed.manualReviewNeeded, info.emailNeedsReview,
                 ConversionNote(info.emailChangedOrderIds))
  }

  /** What one name inserts, in terms of its rows: the customer carries the
      parsed name parts, the first address of the last order's `Email1`
      (or none), and the first and last order dates with 1970-01-01 for a
      missing one; then every order, in fetch order, is linked to that
      customer with the same name-review flag, the multiple-address flag
      and the note of changed order ids. */
  lemma NameEventsShape(g: NameGroup, updateUser: string, customerId: int)
    ensures var r := NameEvents(g, updateUser, customerId);
            var p := ParseFullname(g.fullName);
            var rows := g.Orders();
            var addresses := GetEmailAddresses(Last(rows).email1);
            && |r| == 1 + |rows|
            && r[0] == InsertCustomer(customerId, EmailCustomer(
                 p.title, p.givenName, p.surname, p.suffix,
                 if |addresses| == 0 then None else Some(addresses[0]),
                 rows[0].firstDate.GetOr(Epoch), updateUser,
                 Last(rows).firstDate.GetOr(Epoch), updateUser))
            && forall j :: 0 <= j < |rows| ==>
                 r[1 + j] == InsertLink(CustomerOrderLink(
                   customerId, rows[j].emailOrderId, p.manualReviewNeeded,
                   |addresses| > 1, ConversionNote(ChangedOrderIds(rows))))
  {
  }

  /** The loop state: inserts sent so far and the two counters. */
  datatype PassState = PassState(events: seq<InsertEvent>, customerCount: nat, needsReview: nat)

  /** Only the name's parse decides whether it is counted as needing review. */
  predicate NameNeedsReview(g: NameGroup)
  {
    ParseFullname(g.fullName).manualReviewNeeded
  }

  /** One iteration of the per-name loop, `customerId` being the id the
      store assigned to the customer insert. */
  function Step(st: PassState, g: NameGroup, updateUser: string, customerId: int): PassState
  {
    PassState(
      st.events + NameEvents(g, updateUser, customerId),
      st.customerCount + 1,
      st.needsReview + (if NameNeedsReview(g) then 1 else 0))
  }

  /** What one iteration does: what was sent before stays, the customer
      insert comes next under the assigned id, one link per order follows,
      one more customer is counted, and the review counter grows by one
      exactly when the name's parse asks for review. */
  lemma StepEffect(st: PassState, g: NameGroup, updateUser: string, customerId: int)
    ensures var r := Step(st, g, updateUser, customerId);
            && |r.events| == |st.events| + 1 + |g.Orders()|
            && r.events[..|st.events|] == st.events
            && r.events[|st.events|] == NameEvents(g, updateUser, customerId)[0]
            && r.events[|st.events|].InsertCustomer? && r.events[|st.events|].customerId == customerId
            && (forall j :: |st.events| < j < |r.events| ==> r.events[j].InsertLink?)
            && r.customerCount == st.customerCount + 1
            && (r.needsReview == st.needsReview + 1 <==> ParseFullname(g.fullName).manualReviewNeeded)
            && st.needsReview <= r.needsReview <= st.needsReview + 1
  {
    var block := NameEvents(g, updateUser, customerId);
    var r := Step(st, g, updateUser, customerId);
    NameEventsShape(g, updateUser, customerId);
    assert r.events == st.events + block;
    assert r.events[..|st.events|] == st.events;
    forall j | |st.events| < j < |r.events|
      ensures r.events[j].InsertLink?
    {
      assert r.events[j] == block[1 + (j - |st.events| - 1)];
    }
  }

  /** A name's inserts as a function of the name and its customer id. */
  function NameBlock(updateUser: string): (NameGroup, int) -> seq<InsertEvent>
  {
    (g: NameGroup, customerId: int) => NameEvents(g, updateUser, customerId)
  }

  /** The review test as a function value. */
  function NeedsReview(): NameGroup -> bool
  {
    (g: NameGroup) => NameNeedsReview(g)
  }

  /** The state after the first `k` names: every name so far has been
      inserted, in order, name `i` under `ids[i]`, and counted. */
  function PassAfter(groups: seq<NameGroup>, updateUser: string, ids: seq<int>, k: nat): (st: PassState)
    requires k <= |groups| <= |ids|
    ensures st.customerCount == k
    ensures st.needsReview == CountWhere(groups, NeedsReview(), k)
    ensures st.events == Flatten(MapIds(groups[..k], NameBlock(updateUser), ids))
  {
    if k == 0 then
      PassState([], 0, 0)
    else
      var prev := PassAfter(groups, updateUser, ids, k - 1);
      var g, id := groups[k - 1], ids[k - 1];
      PassEventsSnoc(groups, updateUser, ids, k, prev.events);
      PassReviewSnoc(groups, k, prev.needsReview);
      Step(prev, g, updateUser, id)
  }

  /** The review count of the first `k` names is that of the first `k - 1`
      plus one exactly when the `k`-th name needs review. */
  lemma PassReviewSnoc(groups: seq<NameGroup>, k: nat, before: nat)
    requires 0 < k <= |groups|
    requires before == CountWhere(groups, NeedsReview(), k - 1)
    ensures before + (if NameNeedsReview(groups[k - 1]) then 1 else 0) == CountWhere(groups, NeedsReview(), k)
  {
  }

  /** The inserts of the first `k` names are those of the first `k - 1`
      followed by the `k`-th name's block under the `k`-th id. */
  lemma PassEventsSnoc(groups: seq<NameGroup>, updateUser: string, ids: seq<int>, k: nat, before: seq<InsertEvent>)
    requires 0 < k <= |groups| <= |ids|
    requires before == Flatten(MapIds(groups[..k - 1], NameBlock(updateUser), ids))
    ensures before + NameEvents(groups[k - 1], updateUser, ids[k - 1])
         == Flatten(MapIds(groups[..k], NameBlock(updateUser), ids))
  {
    var g, id := groups[k - 1], ids[k - 1];
    FlattenMapIdsSnoc(groups, NameBlock(updateUser), ids, k, NameEvents(g, updateUser, id));
  }

  /** `create_customers_from_legacy`: the names in the order fetched, each
      with its orders. `ids` are the ids the store hands back (`lastrowid`)
      for the customer inserts, in order, one per name. */
  function CreateCustomersFromLegacy(groups: seq<NameGroup>, updateUser: string, ids: seq<int>): (r: PassState)
    requires |groups| <= |ids|
    ensures r.customerCount == |groups|
    ensures r.needsReview == |Positions(groups, NeedsReview(), |groups|)|
    ensures r.needsReview <= r.customerCount
    ensures r.events == Flatten(MapIds(groups, NameBlock(updateUser), ids))
  {
    var r := PassAfter(groups, updateUser, ids, |groups|);
    assert groups[..|groups|] == groups;
    CountWhereIsPositions(groups, NeedsReview(), |groups|);
    r
  }

  /** The ids of the customer inserts, in order. */
  function CustomerIds(events: seq<InsertEvent>): seq<int>
  {
    if |events| == 0 then []
    else (if events[0].InsertCustomer? then [events[0].customerId] else []) + CustomerIds(events[1..])
  }

  /** The legacy order ids of the link inserts, in order. */
  function LinkedOrderIds(events: seq<InsertEvent>): seq<int>
  {
    if |events| == 0 then []
    else (if events[0].InsertLink? then [events[0].link.emailOrderId] else []) + LinkedOrderIds(events[1..])
  }

  /** The customer ids of two runs of inserts are those of the first run followed by those of the second. */
  lemma {:induction false} CustomerIdsAppend(a: seq<InsertEvent>, b: seq<InsertEvent>)
    ensures CustomerIds(a + b) == CustomerIds(a) + CustomerIds(b)
    decreases |a|
  {
    if |a| == 0 {
      assert a + b == b;
    } else {
      assert (a + b)[0] == a[0];
      assert (a + b)[1..] == a[1..] + b;
      CustomerIdsAppend(a[1..], b);
    }
  }

  /** The linked order ids of two runs of inserts are those of the first run followed by those of the second. */
  lemma {:induction false} LinkedOrderIdsAppend(a: seq<InsertEvent>, b: seq<InsertEvent>)
    ensures LinkedOrderIds(a + b) == LinkedOrderIds(a) + LinkedOrderIds(b)
    decreases |a|
  {
    if |a| == 0 {
      assert a + b == b;
    } else {
      assert (a + b)[0] == a[0];
      assert (a + b)[1..] == a[1..] + b;
      LinkedOrderIdsAppend(a[1..], b);
    }
  }

  /** A run of link inserts carries no customer id, and its order ids are
      read off the links. */
  lemma {:induction false} LinksOnly(customerId: int, orderIds: seq<int>, n: bool, e: bool, note: Option<string>)
    ensures CustomerIds(LinkEvents(customerId, orderIds, n, e, note)) == []
    ensures LinkedOrderIds(LinkEvents(customerId, orderIds, n, e, note)) == orderIds
    decreases |orderIds|
  {
    if |orderIds| > 0 {
      var r := LinkEvents(customerId, orderIds, n, e, note);
      assert r[1..] == LinkEvents(customerId, orderIds[1..], n, e, note);
      LinksOnly(customerId, orderIds[1..], n, e, note);
      assert orderIds == [orderIds[0]] + orderIds[1..];
    }
  }

  /** One name inserts exactly one customer, under the given id, and links
      exactly its own orders, in fetch order. */
  lemma NameEventsIds(g: NameGroup, updateUser: string, customerId: int)
    ensures CustomerIds(NameEvents(g, updateUser, customerId)) == [customerId]
    ensures LinkedOrderIds(NameEvents(g, updateUser, customerId)) == OrderIds(g.Orders())
  {
    var r := NameEvents(g, updateUser, customerId);
    var info := CustomerInfoFromLegacyOrders(g.Orders());
    var parsed := ParseFullname(g.fullName);
    var links := LinkEvents(customerId, info.orderIds, parsed.manualReviewNeeded, info.emailNeedsReview,
                            ConversionNote(info.emailChangedOrderIds));
    assert r == [r[0]] + links;
    CustomerIdsAppend([r[0]], links);
    LinkedOrderIdsAppend([r[0]], links);
    LinksOnly(customerId, info.orderIds, parsed.manualReviewNeeded, info.emailNeedsReview,
              ConversionNote(info.emailChangedOrderIds));
    assert CustomerIds([r[0]]) == [customerId];
    assert LinkedOrderIds([r[0]]) == [];
  }

  /** The legacy order ids of all names, name after name. */
  function GroupOrderIds(groups: seq<NameGroup>): seq<int>
  {
    if |groups| == 0 then [] else OrderIds(groups[0].Orders()) + GroupOrderIds(groups[1..])
  }

  /** Flattening the mapped names unfolds one name at a time. */
  lemma FlattenMapIdsCons(groups: seq<NameGroup>, f: (NameGroup, int) -> seq<InsertEvent>, ids: seq<int>)
    requires 0 < |groups| <= |ids|
    ensures Flatten(MapIds(groups, f, ids)) == f(groups[0], ids[0]) + Flatten(MapIds(groups[1..], f, ids[1..]))
  {
    var m := MapIds(groups, f, ids);
    assert m[1..] == MapIds(groups[1..], f, ids[1..]);
  }

  /** Blocks that each insert one customer under their own id and link the
      orders of their own name give, in sequence, the ids handed out, one
      per name, and all the names' orders in order. */
  lemma {:induction false} BlocksIds(groups: seq<NameGroup>, f: (NameGroup, int) -> seq<InsertEvent>, ids: seq<int>)
    requires |groups| <= |ids|
    requires forall g, id :: CustomerIds(f(g, id)) == [id] && LinkedOrderIds(f(g, id)) == OrderIds(g.Orders())
    ensures CustomerIds(Flatten(MapIds(groups, f, ids))) == ids[..|groups|]
    ensures LinkedOrderIds(Flatten(MapIds(groups, f, ids))) == GroupOrderIds(groups)
    decreases |groups|
  {
    if |groups| > 0 {
      var rest := Flatten(MapIds(groups[1..], f, ids[1..]));
      FlattenMapIdsCons(groups, f, ids);
      CustomerIdsAppend(f(groups[0], ids[0]), rest);
      LinkedOrderIdsAppend(f(groups[0], ids[0]), rest);
      BlocksIds(groups[1..], f, ids[1..]);
      assert ids[..|groups|] == [ids[0]] + ids[1..][..|groups| - 1];
    }
  }

  /** Across the whole pass the customer inserts carry the ids the store
      handed out, one per name, in order, and every legacy order of every
      name is linked exactly once, in fetch order. */
  lemma PassIds(groups: seq<NameGroup>, updateUser: string, ids: seq<int>)
    requires |groups| <= |ids|
    ensures var r := CreateCustomersFromLegacy(groups, updateUser, ids);
            && CustomerIds(r.events) == ids[..|groups|]
            && LinkedOrderIds(r.events) == GroupOrderIds(groups)
  {
    var f := NameBlock(updateUser);
    forall g, id ensures CustomerIds(f(g, id)) == [id] && LinkedOrderIds(f(g, id)) == OrderIds(g.Orders()) {
      NameEventsIds(g, updateUser, id);
    }
    BlocksIds(groups, f, ids);
  }

  /** Every link names the customer inserted most recently before it:
      `current` is the id of the last customer insert seen, if any. */
  predicate LinksFollowCustomer(events: seq<InsertEvent>, current: Option<int>)
  {
    if |events| == 0 then true
    else match events[0]
      case InsertCustomer(id, _) => LinksFollowCustomer(events[1..], Some(id))
      case InsertLink(l) => current == Some(l.emailCustomerId) && LinksFollowCustomer(events[1..], current)
  }

  /** The most recent customer id after `events`, starting from `current`. */
  function CurrentCustomer(events: seq<InsertEvent>, current: Option<int>): Option<int>
  {
    if |events| == 0 then current
    else CurrentCustomer(events[1..], if events[0].InsertCustomer? then Some(events[0].customerId) else current)
  }

  /** Two runs whose links each follow the latest customer insert, the second starting from where the first left off, still do so together. */
  lemma {:induction false} LinksFollowAppend(a: seq<InsertEvent>, b: seq<InsertEvent>, current: Option<int>)
    requires LinksFollowCustomer(a, current)
    requires LinksFollowCustomer(b, CurrentCustomer(a, current))
    ensures LinksFollowCustomer(a + b, current)
    decreases |a|
  {
    if |a| == 0 {
      assert a + b == b;
    } else {
      assert (a + b)[1..] == a[1..] + b;
      var next := if a[0].InsertCustomer? then Some(a[0].customerId) else current;
      LinksFollowAppend(a[1..], b, next);
    }
  }

  /** A run of links for one customer follows that customer's insert. */
  lemma {:induction false} LinkRunFollows(customerId: int, orderIds: seq<int>, n: bool, e: bool, note: Option<string>)
    ensures LinksFollowCustomer(LinkEvents(customerId, orderIds, n, e, note), Some(customerId))
    decreases |orderIds|
  {
    if |orderIds| > 0 {
      var r := LinkEvents(customerId, orderIds, n, e, note);
      assert r[1..] == LinkEvents(customerId, orderIds[1..], n, e, note);
      LinkRunFollows(customerId, orderIds[1..], n, e, note);
    }
  }

  /** A name's block opens with its customer, so its links follow it,
      whatever came before. */
  lemma NameEventsFollow(g: NameGroup, updateUser: string, customerId: int, current: Option<int>)
    ensures LinksFollowCustomer(NameEvents(g, updateUser, customerId), current)
  {
    var r := NameEvents(g, updateUser, customerId);
    var info := CustomerInfoFromLegacyOrders(g.Orders());
    var parsed := ParseFullname(g.fullName);
    LinkRunFollows(customerId, info.orderIds, parsed.manualReviewNeeded, info.emailNeedsReview,
                   ConversionNote(info.emailChangedOrderIds));
    assert r[1..] == LinkEvents(customerId, info.orderIds, parsed.manualReviewNeeded, info.emailNeedsReview,
                                ConversionNote(info.emailChangedOrderIds));
  }

  /** Blocks whose links each follow their own customer insert, whatever
      came before, keep doing so in sequence. */
  lemma {:induction false} BlocksFollow(groups: seq<NameGroup>, f: (NameGroup, int) -> seq<InsertEvent>,
                                        ids: seq<int>, current: Option<int>)
    requires |groups| <= |ids|
    requires forall g, id, cur :: LinksFollowCustomer(f(g, id), cur)
    ensures LinksFollowCustomer(Flatten(MapIds(groups, f, ids)), current)
    decreases |groups|
  {
    if |groups| > 0 {
      var block := f(groups[0], ids[0]);
      var g0, id0 := groups[0], ids[0];
      assert LinksFollowCustomer(f(g0, id0), current);
      FlattenMapIdsCons(groups, f, ids);
      BlocksFollow(groups[1..], f, ids[1..], CurrentCustomer(block, current));
      LinksFollowAppend(block, Flatten(MapIds(groups[1..], f, ids[1..])), current);
    }
  }

  /** Referential integrity of the output: every link inserted by the pass
      points at the customer inserted just before its run of links. */
  lemma PassLinksFollowCustomer(groups: seq<NameGroup>, updateUser: string, ids: seq<int>)
    requires |groups| <= |ids|
    ensures LinksFollowCustomer(CreateCustomersFromLegacy(groups, updateUser, ids).events, None)
  {
    var f := NameBlock(updateUser);
    forall g, id, cur ensures LinksFollowCustomer(f(g, id), cur) {
      NameEventsFollow(g, updateUser, id, cur);
    }
    BlocksFollow(groups, f, ids, None);
  }
}
