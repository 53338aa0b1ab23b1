/** The control break of the top-customer order report
    (`write_top_customer_order_report`): rows of ordered items are turned
    into report lines, a customer header whenever the customer id differs
    from the previous row's, and an item line that shows the order date and
    id only when the order id differs from the previous row's. Lines are
    kept as their kinds; their text layout is not modelled. */
module OrderReport {
  import opened Optional
  import opened Seqs

  /** One row of the report query: the customer, the order, and the item
      ordered. The remaining columns only feed the layout. */
  datatype ReportRow = ReportRow(emailCustomerId: int, emailOrderId: int, item: string)

  datatype Line =
    | Title                          // "# Items Ordered by Customer"
    | CustomerHeader(row: ReportRow) // name, e-mail, phone, id, table head
    | NewOrderItem(row: ReportRow)   // item line showing order date and id
    | AddItem(row: ReportRow)        // item line of the order above it
    | Trailer                        // the closing blank line

  predicate IsItem(l: Line)
  {
    l.NewOrderItem? || l.AddItem?
  }

  /** Reference for row `i`, by position: a header when it is the first row
      or its customer differs from the previous row's; then its item line,
      opening a new order when it is the first row or its order id differs
      from the previous row's. The customer plays no part in the order
      test. */
  function RowLines(rows: seq<ReportRow>, i: nat): (r: seq<Line>)
    requires i < |rows|
    ensures 1 <= |r| <= 2 && IsItem(Last(r)) && Last(r).row == rows[i]
  {
    var newCustomer := i == 0 || rows[i].emailCustomerId != rows[i - 1].emailCustomerId;
    var newOrder := i == 0 || rows[i].emailOrderId != rows[i - 1].emailOrderId;
    (if newCustomer then [CustomerHeader(rows[i])] else [])
    + [if newOrder then NewOrderItem(rows[i]) else AddItem(rows[i])]
  }

  /** The lines of the first `k` rows. */
  function ReportLines(rows: seq<ReportRow>, k: nat): seq<Line>
    requires k <= |rows|
  {
    if k == 0 then [] else ReportLines(rows, k - 1) + RowLines(rows, k - 1)
  }

  /** The report loop as written: the previous customer and order ids start
      out as none, the customer id is remembered when a header is written
      and the order id when a new order is opened; neither is reset by the
      other. */
  method WriteTopCustomerOrderReport(rows: seq<ReportRow>) returns (lines: seq<Line>)
    ensures lines == [Title] + ReportLines(rows, |rows|) + [Trailer]
  {
    lines := [Title];
    var prevCustomer: Option<int> := None;
    var prevOrder: Option<int> := None;
    var i := 0;
    while i < |rows|
      invariant 0 <= i <= |rows|
      invariant lines == [Title] + ReportLines(rows, i)
      invariant i == 0 ==> prevCustomer.None? && prevOrder.None?
      invariant i > 0 ==> prevCustomer == Some(rows[i - 1].emailCustomerId)
      invariant i > 0 ==> prevOrder == Some(rows[i - 1].emailOrderId)
    {
      var row := rows[i];
      if Some(row.emailCustomerId) != prevCustomer {
        lines := lines + [CustomerHeader(row)];
        prevCustomer := Some(row.emailCustomerId);
      }
      var line := AddItem(row);
      if Some(row.emailOrderId) != prevOrder {
        line := NewOrderItem(row);
        prevOrder := Some(row.emailOrderId);
      }
      lines := lines + [line];
      i := i + 1;
    }
    lines := lines + [Trailer];
  }

  /** The rows of the item lines, in order. */
  function ItemRows(lines: seq<Line>): seq<ReportRow>
  {
    if |lines| == 0 then []
    else (if IsItem(lines[0]) then [lines[0].row] else []) + ItemRows(lines[1..])
  }

  /** The customer ids of the header lines, in order. */
  function HeaderCustomers(lines: seq<Line>): seq<int>
  {
    if |lines| == 0 then []
    else (if lines[0].CustomerHeader? then [lines[0].row.emailCustomerId] else []) + HeaderCustomers(lines[1..])
  }

  lemma {:induction false} ItemRowsAppend(a: seq<Line>, b: seq<Line>)
    ensures ItemRows(a + b) == ItemRows(a) + ItemRows(b)
    decreases |a|
  {
    if |a| == 0 {
      assert a + b == b;
    } else {
      assert (a + b)[0] == a[0];
      assert (a + b)[1..] == a[1..] + b;
      ItemRowsAppend(a[1..], b);
    }
  }

  lemma {:induction false} HeaderCustomersAppend(a: seq<Line>, b: seq<Line>)
    ensures HeaderCustomers(a + b) == HeaderCustomers(a) + HeaderCustomers(b)
    decreases |a|
  {
    if |a| == 0 {
      assert a + b == b;
    } else {
      assert (a + b)[0] == a[0];
      assert (a + b)[1..] == a[1..] + b;
      HeaderCustomersAppend(a[1..], b);
    }
  }

  /** One row's lines: one item line carrying the row, and a header for
      that row's customer exactly when the customer changed. */
  lemma RowLinesContent(rows: seq<ReportRow>, i: nat)
    requires i < |rows|
    ensures ItemRows(RowLines(rows, i)) == [rows[i]]
    ensures HeaderCustomers(RowLines(rows, i))
         == if i == 0 || rows[i].emailCustomerId != rows[i - 1].emailCustomerId then [rows[i].emailCustomerId] else []
  {
    var r := RowLines(rows, i);
    var item := Last(r);
    if |r| == 2 {
      assert r[1..] == [item];
    }
    assert ItemRows([item]) == [rows[i]] by {
      assert [item][1..] == [];
    }
    assert HeaderCustomers([item]) == [] by {
      assert [item][1..] == [];
    }
  }

  /** Every row is printed exactly once as an item line, in query order. */
  lemma {:induction false} ReportItemRows(rows: seq<ReportRow>, k: nat)
    requires k <= |rows|
    ensures ItemRows(ReportLines(rows, k)) == rows[..k]
  {
    if k > 0 {
      ReportItemRows(rows, k - 1);
      ItemRowsAppend(ReportLines(rows, k - 1), RowLines(rows, k - 1));
      RowLinesContent(rows, k - 1);
      assert rows[..k] == rows[..k - 1] + [rows[k - 1]];
    }
  }

  /** The whole report: a title, every row once as an item, in order, and
      the closing line. */
  lemma ReportFrame(rows: seq<ReportRow>)
    ensures var lines := [Title] + ReportLines(rows, |rows|) + [Trailer];
            && lines[0] == Title && Last(lines) == Trailer
            && ItemRows(lines) == rows
  {
    var body := ReportLines(rows, |rows|);
    ReportItemRows(rows, |rows|);
    assert rows[..|rows|] == rows;
    ItemRowsFramed(body);
  }

  /** The title and trailer carry no item rows. */
  lemma ItemRowsFramed(body: seq<Line>)
    ensures ItemRows([Title] + body + [Trailer]) == ItemRows(body)
  {
    var lines := [Title] + body + [Trailer];
    assert lines[0] == Title;
    assert lines[1..] == body + [Trailer];
    ItemRowsAppend(body, [Trailer]);
    assert ItemRows([Trailer]) == [] by {
      assert [Trailer][1..] == [];
    }
  }

  /** Each customer's rows come together: a customer seen at two positions
      is the customer at every position between them. */
  predicate CustomersContiguous(rows: seq<ReportRow>)
  {
    forall i, j, m :: 0 <= i < j < m < |rows| && rows[i].emailCustomerId == rows[m].emailCustomerId
      ==> rows[j].emailCustomerId == rows[i].emailCustomerId
  }

  /** The customer ids among the first `k` rows. */
  function CustomersSeen(rows: seq<ReportRow>, k: nat): set<int>
    requires k <= |rows|
  {
    set i | 0 <= i < k :: rows[i].emailCustomerId
  }

  predicate NoDuplicates(xs: seq<int>)
  {
    forall i, j :: 0 <= i < j < |xs| ==> xs[i] != xs[j]
  }

  lemma NoDuplicatesSnoc(xs: seq<int>, x: int)
    requires NoDuplicates(xs) && x !in xs
    ensures NoDuplicates(xs + [x])
  {
  }

  /** One more row adds its customer to the headers exactly when the
      customer changed. */
  lemma HeadersStep(rows: seq<ReportRow>, k: nat)
    requires 0 < k <= |rows|
    ensures HeaderCustomers(ReportLines(rows, k))
         == HeaderCustomers(ReportLines(rows, k - 1))
            + if k == 1 || rows[k - 1].emailCustomerId != rows[k - 2].emailCustomerId
              then [rows[k - 1].emailCustomerId] else []
  {
    HeaderCustomersAppend(ReportLines(rows, k - 1), RowLines(rows, k - 1));
    RowLinesContent(rows, k - 1);
  }

  /** The headers name exactly the customers of the rows. When each
      customer's rows come together, no customer gets a second header. */
  lemma {:induction false} ReportHeaders(rows: seq<ReportRow>, k: nat)
    requires k <= |rows|
    ensures forall c :: c in HeaderCustomers(ReportLines(rows, k)) <==> c in CustomersSeen(rows, k)
    ensures CustomersContiguous(rows) ==> NoDuplicates(HeaderCustomers(ReportLines(rows, k)))
  {
    if k > 0 {
      ReportHeaders(rows, k - 1);
      HeadersStep(rows, k);
      SeenStep(rows, k);
      var before := HeaderCustomers(ReportLines(rows, k - 1));
      var c := rows[k - 1].emailCustomerId;
      if k == 1 || c != rows[k - 2].emailCustomerId {
        if CustomersContiguous(rows) {
          if c in before {
            var j :| 0 <= j < k - 1 && rows[j].emailCustomerId == c;
            assert false;
          }
          NoDuplicatesSnoc(before, c);
        }
      }
    }
  }

  /** One more row adds its customer to those seen; the previous row's customer was already seen. */
  lemma SeenStep(rows: seq<ReportRow>, k: nat)
    requires 0 < k <= |rows|
    ensures CustomersSeen(rows, k) == CustomersSeen(rows, k - 1) + {rows[k - 1].emailCustomerId}
    ensures k >= 2 ==> rows[k - 2].emailCustomerId in CustomersSeen(rows, k - 1)
  {
  }

  /** The order test ignores the customer: an order id repeated across a
      customer change is printed as a continuation of the previous
      customer's order, under the new customer's header. */
  lemma OrderIdNotReset()
    ensures var r0 := ReportRow(1, 7, "Merlot");
            var r1 := ReportRow(2, 7, "Syrah");
            ReportLines([r0, r1], 2) == [CustomerHeader(r0), NewOrderItem(r0), CustomerHeader(r1), AddItem(r1)]
  {
    var r0 := ReportRow(1, 7, "Merlot");
    var r1 := ReportRow(2, 7, "Syrah");
    var rows := [r0, r1];
    assert RowLines(rows, 0) == [CustomerHeader(r0), NewOrderItem(r0)];
    assert RowLines(rows, 1) == [CustomerHeader(r1), AddItem(r1)];
    assert ReportLines(rows, 1) == [] + RowLines(rows, 0);
  }

  /** The query sorts by e-mail address, not by customer id: when another
      customer's rows fall between two rows of one customer, that customer
      gets a second header. */
  lemma InterleavedCustomersRepeatHeader()
    ensures var rows := [ReportRow(1, 7, "Merlot"), ReportRow(2, 8, "Syrah"), ReportRow(1, 9, "Port")];
            HeaderCustomers(ReportLines(rows, 3)) == [1, 2, 1]
  {
    var rows := [ReportRow(1, 7, "Merlot"), ReportRow(2, 8, "Syrah"), ReportRow(1, 9, "Port")];
    HeadersStep(rows, 1);
    HeadersStep(rows, 2);
    HeadersStep(rows, 3);
    assert HeaderCustomers(ReportLines(rows, 0)) == [];
  }
}
