/** Legacy e-mail order rows and the aggregation of all rows sharing one
    `FullName` into the information a new e-mail customer is built from:
    the order ids, the first and last order dates, the orders at which the
    `Email1` field changed, and the addresses of the final `Email1`. */
module LegacyOrders {
  import opened Optional
  import opened Seqs
  import opened Emails
  import opened Words

  /** A calendar date; only its order and identity matter here. */
  datatype Date = Date(year: int, month: int, day: int)

  /** `date(1970, 1, 1)`, the stand-in for a missing order date. */
  const Epoch: Date := Date(1970, 1, 1)

  predicate DateLe(a: Date, b: Date)
  {
    || a.year < b.year
    || (a.year == b.year && a.month < b.month)
    || (a.year == b.year && a.month == b.month && a.day <= b.day)
  }

  /** Ascending order on a nullable date column: NULL sorts first. */
  predicate NullableDateLe(a: Option<Date>, b: Option<Date>)
  {
    a.None? || (b.Some? && DateLe(a.value, b.value))
  }

  /** The columns of a `LegacyEmailOrders` row that the aggregation reads.
      `FirstDate` is the order date and may be NULL. */
  datatype LegacyOrderRow = LegacyOrderRow(
    emailOrderId: int,
    firstDate: Option<Date>,
    fullName: string,
    email1: string)

  /** The order the rows of one name are fetched in (`ORDER BY FirstDate ASC`). */
  predicate SortedByFirstDate(rows: seq<LegacyOrderRow>)
  {
    forall i :: 0 < i < |rows| ==> NullableDateLe(rows[i - 1].firstDate, rows[i].firstDate)
  }

  /** What the aggregation returns for one name. */
  datatype CustomerInfo = CustomerInfo(
    orderIds: seq<int>,
    email: seq<string>,
    emailNeedsReview: bool,
    emailChangedOrderIds: seq<int>,
    firstOrderDate: Option<Date>,
    lastOrderDate: Option<Date>)

  /** The order ids of `rows`, in order. */
  function OrderIds(rows: seq<LegacyOrderRow>): (r: seq<int>)
    ensures |r| == |rows|
  {
    seq(|rows|, i requires 0 <= i < |rows| => rows[i].emailOrderId)
  }

  /** Row `i` has an `Email1` different from the row before it. */
  predicate EmailChangedAt(rows: seq<LegacyOrderRow>, i: int)
  {
    1 <= i < |rows| && rows[i].email1 != rows[i - 1].email1
  }

  /** The positions at which `Email1` changes, built up row by row. */
  function DriftIndices(rows: seq<LegacyOrderRow>): (ix: seq<nat>)
    ensures forall k :: 0 <= k < |ix| ==> 1 <= ix[k] < |rows|
  {
    if |rows| < 2 then []
    else
      var n := |rows| - 1;
      DriftIndices(rows[..n]) + (if EmailChangedAt(rows, n) then [n] else [])
  }

  /** The reference for `email_changed_orderids`: the order ids of the rows
      whose `Email1` differs from the previous row's, in row order. */
  function ChangedOrderIds(rows: seq<LegacyOrderRow>): (r: seq<int>)
  {
    var ix := DriftIndices(rows);
    seq(|ix|, j requires 0 <= j < |ix| => rows[ix[j]].emailOrderId)
  }

  /** One more row extends the order ids by its id. */
  lemma OrderIdsSnoc(rows: seq<LegacyOrderRow>, i: nat)
    requires i < |rows|
    ensures OrderIds(rows[..i + 1]) == OrderIds(rows[..i]) + [rows[i].emailOrderId]
  {
  }

  /** One more row extends the changed ids by its id exactly when its
      `Email1` differs from the previous row's. */
  lemma ChangedOrderIdsSnoc(rows: seq<LegacyOrderRow>, i: nat)
    requires 1 <= i < |rows|
    ensures ChangedOrderIds(rows[..i + 1])
         == ChangedOrderIds(rows[..i]) + (if rows[i].email1 != rows[i - 1].email1 then [rows[i].emailOrderId] else [])
  {
    var p := rows[..i + 1];
    assert p[..i] == rows[..i];
    DriftIndicesPrefix(p, rows[..i]);
  }

  /** The drift positions of a prefix are read on the prefix's own rows. */
  lemma DriftIndicesPrefix(p: seq<LegacyOrderRow>, q: seq<LegacyOrderRow>)
    requires |p| >= 2 && q == p[..|p| - 1]
    ensures forall k :: 0 <= k < |DriftIndices(q)| ==> p[DriftIndices(q)[k]] == q[DriftIndices(q)[k]]
  {
  }

  /** The loop of the aggregation from row `i` on, carrying the previous
      row's `Email1` and the information gathered so far. Like the source
      it raises the review flag on every change, and then overwrites it
      with the multiple-address test on the final `Email1`. */
  function ScanOrders(rows: seq<LegacyOrderRow>, i: nat, prevEmail1: string, info: CustomerInfo): (r: CustomerInfo)
    requires 1 <= i <= |rows|
    requires prevEmail1 == rows[i - 1].email1
    requires info.orderIds == OrderIds(rows[..i])
    requires info.emailChangedOrderIds == ChangedOrderIds(rows[..i])
    requires info.firstOrderDate == rows[0].firstDate
    requires info.lastOrderDate == rows[i - 1].firstDate
    ensures r.orderIds == OrderIds(rows)
    ensures r.emailChangedOrderIds == ChangedOrderIds(rows)
    ensures r.firstOrderDate == rows[0].firstDate
    ensures r.lastOrderDate == Last(rows).firstDate
    ensures r.email == GetEmailAddresses(Last(rows).email1)
    ensures r.emailNeedsReview <==> |r.email| > 1
    decreases |rows| - i
  {
    if i == |rows| then
      assert rows[..i] == rows;
      var email := GetEmailAddresses(prevEmail1);
      info.(email := email, emailNeedsReview := |email| > 1)
    else
      var row := rows[i];
      var changed := row.email1 != prevEmail1;
      OrderIdsSnoc(rows, i);
      ChangedOrderIdsSnoc(rows, i);
      var next := info.(
        orderIds := info.orderIds + [row.emailOrderId],
        lastOrderDate := row.firstDate,
        emailNeedsReview := if changed then true else info.emailNeedsReview,
        emailChangedOrderIds :=
          if changed then info.emailChangedOrderIds + [row.emailOrderId] else info.emailChangedOrderIds);
      ScanOrders(rows, i + 1, row.email1, next)
  }

  /** `_get_customer_info_from_legacy_orders`: the rows of one name, at
      least one, in the order they were fetched. */
  function CustomerInfoFromLegacyOrders(rows: seq<LegacyOrderRow>): (r: CustomerInfo)
    requires |rows| > 0
    ensures |r.orderIds| == |rows|
    ensures forall i :: 0 <= i < |rows| ==> r.orderIds[i] == rows[i].emailOrderId
    ensures r.firstOrderDate == rows[0].firstDate
    ensures r.lastOrderDate == Last(rows).firstDate
    ensures r.emailChangedOrderIds == ChangedOrderIds(rows)
    ensures r.email == GetEmailAddresses(Last(rows).email1)
    ensures r.emailNeedsReview <==> |r.email| > 1
  {
    var first := rows[0];
    assert rows[..1] == [first];
    ScanOrders(rows, 1, first.email1,
               CustomerInfo([first.emailOrderId], [], false, [], first.firstDate, first.firstDate))
  }

  /** The drift positions are strictly increasing and are exactly the rows
      whose `Email1` differs from the previous row's; row 0 is never one. */
  lemma {:induction false} DriftIndicesExact(rows: seq<LegacyOrderRow>)
    ensures var ix := DriftIndices(rows);
            && (forall j, k :: 0 <= j < k < |ix| ==> ix[j] < ix[k])
            && (forall i :: i in ix <==> EmailChangedAt(rows, i))
    decreases |rows|
  {
    if |rows| >= 2 {
      var n := |rows| - 1;
      var q := rows[..n];
      DriftIndicesExact(q);
      DriftIndicesPrefix(rows, q);
      forall i ensures EmailChangedAt(q, i) <==> (EmailChangedAt(rows, i) && i < n) {
        if 1 <= i < n {
          assert q[i] == rows[i] && q[i - 1] == rows[i - 1];
        }
      }
    }
  }

  /** The changed ids are an order-preserving subsequence of the order ids. */
  lemma {:induction false} ChangedIdsSubsequence(rows: seq<LegacyOrderRow>)
    ensures IsSubsequence(ChangedOrderIds(rows), OrderIds(rows))
    decreases |rows|
  {
    if |rows| < 2 {
      assert ChangedOrderIds(rows) == [];
    } else {
      var n := |rows| - 1;
      ChangedIdsSubsequence(rows[..n]);
      ChangedOrderIdsSnoc(rows, n);
      OrderIdsSnoc(rows, n);
      assert rows[..n + 1] == rows;
      var small, big := ChangedOrderIds(rows[..n]), OrderIds(rows[..n]);
      SubsequenceSnoc(small, big, rows[n].emailOrderId);
      if rows[n].email1 != rows[n - 1].email1 {
        assert ChangedOrderIds(rows) == small + [rows[n].emailOrderId];
      } else {
        assert ChangedOrderIds(rows) == small;
      }
    }
  }

  /** No change is recorded exactly when every row carries the first row's
      `Email1`. */
  lemma {:induction false} NoChangeIffConstantEmail(rows: seq<LegacyOrderRow>)
    requires |rows| > 0
    ensures ChangedOrderIds(rows) == [] <==> forall i :: 0 <= i < |rows| ==> rows[i].email1 == rows[0].email1
    decreases |rows|
  {
    DriftIndicesExact(rows);
    var ix := DriftIndices(rows);
    if |rows| >= 2 {
      var n := |rows| - 1;
      NoChangeIffConstantEmail(rows[..n]);
      DriftIndicesExact(rows[..n]);
      if ChangedOrderIds(rows) == [] {
        assert |ix| == 0;
        forall i | 0 <= i < |rows| ensures rows[i].email1 == rows[0].email1 {
          ConstantUpTo(rows, i);
        }
      } else {
        var i := ix[0];
        assert EmailChangedAt(rows, i);
      }
    }
  }

  /** With no change anywhere, row `i` carries the first row's `Email1`. */
  lemma {:induction false} ConstantUpTo(rows: seq<LegacyOrderRow>, i: nat)
    requires i < |rows|
    requires forall k :: !EmailChangedAt(rows, k)
    ensures rows[i].email1 == rows[0].email1
  {
    if i > 0 {
      assert !EmailChangedAt(rows, i);
      ConstantUpTo(rows, i - 1);
    }
  }

  /** The date order with NULL first is transitive. */
  lemma DateLeTransitive(a: Option<Date>, b: Option<Date>, c: Option<Date>)
    requires NullableDateLe(a, b) && NullableDateLe(b, c)
    ensures NullableDateLe(a, c)
  {
  }

  /** On rows fetched in ascending date order, the first order date is
      not after any row's date and the last order date not before any. */
  lemma {:induction false} DatesBracketOrders(rows: seq<LegacyOrderRow>)
    requires |rows| > 0 && SortedByFirstDate(rows)
    ensures var r := CustomerInfoFromLegacyOrders(rows);
            forall i :: 0 <= i < |rows| ==>
              NullableDateLe(r.firstOrderDate, rows[i].firstDate) && NullableDateLe(rows[i].firstDate, r.lastOrderDate)
  {
    forall i | 0 <= i < |rows|
      ensures NullableDateLe(rows[0].firstDate, rows[i].firstDate)
      ensures NullableDateLe(rows[i].firstDate, Last(rows).firstDate)
    {
      SortedSpan(rows, 0, i);
      SortedSpan(rows, i, |rows| - 1);
    }
  }

  /** In rows sorted by `FirstDate`, an earlier row's date is not after a later row's. */
  lemma {:induction false} SortedSpan(rows: seq<LegacyOrderRow>, i: nat, j: nat)
    requires i <= j < |rows| && SortedByFirstDate(rows)
    ensures NullableDateLe(rows[i].firstDate, rows[j].firstDate)
    decreases j - i
  {
    if i < j {
      SortedSpan(rows, i, j - 1);
      DateLeTransitive(rows[i].firstDate, rows[j - 1].firstDate, rows[j].firstDate);
    }
  }

  /** The review flag raised by a change of `Email1` does not survive: for
      three rows whose last `Email1` differs from the two before it but
      holds at most one address, the change is recorded and yet no e-mail
      review is asked for. */
  lemma DriftFlagOverwritten(rows: seq<LegacyOrderRow>)
    requires |rows| == 3
    requires rows[0].email1 == rows[1].email1 != rows[2].email1
    requires |GetEmailAddresses(rows[2].email1)| <= 1
    ensures CustomerInfoFromLegacyOrders(rows).emailChangedOrderIds == [rows[2].emailOrderId]
    ensures !CustomerInfoFromLegacyOrders(rows).emailNeedsReview
  {
    assert DriftIndices(rows[..2]) == [];
    assert DriftIndices(rows) == [2];
  }

  /** The customer's addresses come from the last order, not the first:
      for two orders whose single-address `Email1` fields differ, the
      address kept is the second one. */
  lemma AddressFromLastOrder(rows: seq<LegacyOrderRow>)
    requires |rows| == 2
    requires rows[0].email1 != rows[1].email1
    requires IsWord(rows[1].email1) && HasAt(rows[1].email1)
    ensures CustomerInfoFromLegacyOrders(rows).email == [rows[1].email1]
    ensures CustomerInfoFromLegacyOrders(rows).emailChangedOrderIds == [rows[1].emailOrderId]
    ensures !CustomerInfoFromLegacyOrders(rows).emailNeedsReview
  {
    OneWordField(rows[1].email1);
    assert DriftIndices(rows) == [1];
  }
}
