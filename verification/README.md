# Customer consolidation of legacy e-mail orders, in Dafny

This project models the customer-consolidation core of the Cynthia Hurley
wine-shop data tools (`pysrc/chwdata/retail_orders.py`). The core turns the
freeform `LegacyEmailOrders` table into `EmailCustomers` rows and their
links to the legacy orders.

- **Name heuristic.** `parse_fullname`, with `is_name_title` and
  `is_name_suffix`, splits a `FullName` on whitespace and peels off a
  known title from the front and a known suffix from the back. All
  remaining words but the last become the given name; the last one becomes
  the surname. The name asks for manual review unless exactly two words
  remain.
- **E-mail heuristic.** `get_email_addresses` keeps every
  whitespace-separated word of an `Email1` field that contains an `@`.
- **Aggregator.** `_get_customer_info_from_legacy_orders` folds the rows of
  one name, fetched in ascending `FirstDate` order, into:
  - the order ids;
  - the first and last order dates;
  - the orders at which `Email1` changed;
  - the addresses of the final `Email1`, and a flag for more than one.
- **Driver.** `create_customers_from_legacy` runs one pass over the
  distinct names. Each name inserts one customer under the id the store
  assigns, then one link per order carrying the two review flags and a
  conversion note listing the changed order ids. The pass counts the
  customers and the names needing review.
- **Report.** `write_top_customer_order_report` has a control-break loop.
  It writes a customer header whenever the customer id differs from the
  previous row's, and an item line that opens a new order whenever the
  order id differs from the previous row's.

How the model is built:

- The store is replaced by the sequence of insert events it would receive.
- The ids the store hands back (`lastrowid`) are given to the pass as a
  sequence, one per name, in the order the customers are inserted.
- Report lines are kept as their kinds (title, customer header, new-order
  item, add-item, trailer) carrying their row.
- Python's argument-less `str.split()` is modelled exactly. It splits on
  the characters `str.isspace()` accepts, listed by code point in
  `Words.IsSpace`.

Modules, one file each:

- `Optional`, `Seqs`: shared vocabulary.
- `Words`: split and join.
- `Names`: the name heuristic.
- `Emails`: the e-mail heuristic.
- `Decimal`: `str(int)`, `', '.join`, and a reader for the round trip.
- `LegacyOrders`: rows, dates and the aggregator.
- `Consolidation`: the driver.
- `OrderReport`: the report.

Where the code and its own description disagree, the model follows the
code:

- **The address comes from the last order.** The comments at lines 323-324
  and 462-463 say the new customer takes the `Email1` of the first order.
  The code takes the addresses of the last row's `Email1` (`prevEmail1`
  after the loop, line 488). `LegacyOrders.AddressFromLastOrder` shows this
  on two orders.
- **A change of `Email1` does not by itself ask for review.** The loop
  raises `email_needs_review` at every change (line 483). Line 489 then
  overwrites it with "more than one address in the final `Email1`".
  `LegacyOrders.DriftFlagOverwritten` shows a recorded change with no
  review asked. The changed ids still reach the links through the
  conversion note.

## Model

| member | source | states |
|---|---|---|
| Words.Split | pysrc/chwdata/retail_orders.py:524 | Every token of the split is non-empty and free of whitespace. `SplitJoin`, `SplitAround` and `SplitEmptyIffBlank` pin down which tokens they are. |
| Words.SplitJoin | pysrc/chwdata/retail_orders.py:524-537 | Splitting whitespace-free words joined by single spaces gives back exactly those words. So the given name the parser builds with `' '.join` re-splits into the words it was built from. |
| Words.SplitAround | pysrc/chwdata/retail_orders.py:524 | The tokens of `a`, a whitespace character, then `b`, are the tokens of `a` followed by those of `b`. |
| Words.SplitEmptyIffBlank | pysrc/chwdata/retail_orders.py:524 | A string has no tokens exactly when every character is whitespace. |
| Names.ParseFullname | pysrc/chwdata/retail_orders.py:494-541 | A title or suffix in the result is always one of the known ones. |
| Names.ParseTitleSuffix | pysrc/chwdata/retail_orders.py:526-532 | A title is taken exactly when the first word is a known title, and then it is that word. A suffix is taken exactly when the last word left after that is a known suffix, and then it is that word. Neither is taken from an empty word list. |
| Names.ParseRecomposes | pysrc/chwdata/retail_orders.py:518-541 | The title, the remaining words and the suffix put back together are the words of the full name. The given name is those words but the last, single-spaced, and the surname is the last one. The surname is empty exactly when no word remains. Review is asked exactly when the number of remaining words is not two. |
| Names.ParseTwoWords | pysrc/chwdata/retail_orders.py:536-539 | An optional known title, two words and an optional known suffix parse to exactly those parts with no review. This holds provided neither word could itself be taken for the missing title or suffix. |
| Names.ParseBlank | pysrc/chwdata/retail_orders.py:518-524 | An empty or all-whitespace name gives no title or suffix, empty name parts, and asks for review. |
| Names.IsNameTitle | pysrc/chwdata/retail_orders.py:544-555 | A known title is a single whitespace-free word, so it can only match a whole token of the split. It is never also a known suffix. |
| Names.IsNameSuffix | pysrc/chwdata/retail_orders.py:558-569 | A known suffix is a single whitespace-free word. |
| Emails.KeepAddresses | pysrc/chwdata/retail_orders.py:579 | Every word kept contains `@` and is one of the given words, and no more words come out than went in. `KeepAddressesAppend` fixes the filter exactly. |
| Emails.GetEmailAddresses | pysrc/chwdata/retail_orders.py:572-584 | Every extracted address contains `@` and is a whitespace-free word. |
| Emails.GetEmailAddressesExact | pysrc/chwdata/retail_orders.py:578-579 | A string is extracted exactly when it is a word of the field containing `@`. The extraction is an order-preserving subsequence of the words. It is empty exactly when no word has an `@`. |
| Emails.KeepAddressesAppend | pysrc/chwdata/retail_orders.py:579 | The filter commutes with concatenation, keeps a one-word list exactly when the word has `@`, and keeps nothing of the empty list. |
| Emails.GetEmailAddressesAround | pysrc/chwdata/retail_orders.py:578-579 | Extraction from `a`, whitespace, `b` is extraction from `a` followed by extraction from `b`. |
| Emails.TwoAddressesExample | pysrc/chwdata/retail_orders.py:575-579 | `"a@b.com x y@z.com"` yields `["a@b.com", "y@z.com"]`. |
| Emails.NoAddressExample | pysrc/chwdata/retail_orders.py:575-579 | `"no emails here"` yields nothing. |
| Decimal.IntToDecimal | pysrc/chwdata/retail_orders.py:345 | `str(n)` is non-empty, starts with `-` exactly when `n` is negative, and is otherwise all decimal digits. |
| Decimal.IdListText | pysrc/chwdata/retail_orders.py:345 | The `', '`-joined text is empty exactly when there are no ids, and otherwise starts with the first id's rendering. |
| Decimal.ReadIntOfDecimal | pysrc/chwdata/retail_orders.py:345 | `str(v)` of any integer, followed by a non-digit or nothing, reads back as `v` and takes exactly its own length. |
| Decimal.ReadIdListText | pysrc/chwdata/retail_orders.py:345 | The `', '`-joined decimal ids of a non-empty id list read back as exactly that list. |
| Consolidation.ConversionNote | pysrc/chwdata/retail_orders.py:344-346 | The note is absent exactly when no order changed `Email1`. Otherwise it starts with `Email was changed in order ids: `. |
| Consolidation.ConversionNoteRoundTrip | pysrc/chwdata/retail_orders.py:344-346 | The note loses nothing: reading it back gives every changed order id, in order, and no note means none. |
| LegacyOrders.ScanOrders | pysrc/chwdata/retail_orders.py:477-489 | From any row on, given state that holds for the rows so far, the loop ends with all of the following. The order ids are the ids of all rows. The changed ids are those of the rows whose `Email1` differs from the previous row's. The first date is row 0's and the last date the last row's. The addresses are those of the last row's `Email1`. The flag is set exactly when there is more than one address. |
| LegacyOrders.CustomerInfoFromLegacyOrders | pysrc/chwdata/retail_orders.py:445-491 | For at least one row, the aggregate holds the order ids in row order and row 0's date as the first order date. The last order date is the last row's date. The changed ids are exactly the reference drift ids. The addresses are those of the last row's `Email1`. The review flag is set exactly when there is more than one address. |
| LegacyOrders.DriftIndicesExact | pysrc/chwdata/retail_orders.py:477-486 | The drift positions strictly increase and are exactly the rows whose `Email1` differs from the previous row's. |
| LegacyOrders.ChangedIdsSubsequence | pysrc/chwdata/retail_orders.py:477-486 | The changed ids are an order-preserving subsequence of the order ids. |
| LegacyOrders.NoChangeIffConstantEmail | pysrc/chwdata/retail_orders.py:481-484 | No change is recorded exactly when every row carries the first row's `Email1`. |
| LegacyOrders.DatesBracketOrders | pysrc/chwdata/retail_orders.py:121-125 | On rows in ascending `FirstDate` order, NULL first, the first order date is not after any row's date. The last order date is not before any row's date. |
| LegacyOrders.DriftFlagOverwritten | pysrc/chwdata/retail_orders.py:481-489 | Take three rows whose last `Email1` differs from the two before it and has at most one address. The change is recorded, yet no e-mail review is asked for. |
| LegacyOrders.AddressFromLastOrder | pysrc/chwdata/retail_orders.py:486-489 | With two orders whose `Email1` differ and the second is a single address, the address kept is the second order's. The change is recorded and no review is asked. |
| Consolidation.NameEvents | pysrc/chwdata/retail_orders.py:318-356 | One name sends one insert per order plus one, and the first is the customer insert under the id the store assigned. |
| Consolidation.NameEventsShape | pysrc/chwdata/retail_orders.py:316-356 | One name inserts one customer and then one link per order. The customer carries the parsed name parts and the first address of the last order's `Email1`, or none. It carries the first and last order dates, with 1970-01-01 for a missing one, and the update user. Every order, in fetch order, is linked to that customer with the name's review flag, the more-than-one-address flag and the note of changed ids. |
| Consolidation.StepEffect | pysrc/chwdata/retail_orders.py:316-371 | One iteration keeps every earlier insert and sends next the customer insert under the assigned id, then only links, one per order. It counts one more customer. It raises the review counter by one exactly when the name's parse asks for review, and otherwise leaves it. |
| Consolidation.PassAfter | pysrc/chwdata/retail_orders.py:313-371 | After `k` names, `k` customers are counted. The review counter is the number of those names whose parse asks for review. The inserts are those of each name in turn, name `i` under the `i`-th id the store handed back. |
| Consolidation.CreateCustomersFromLegacy | pysrc/chwdata/retail_orders.py:280-373 | The pass counts one customer per name. Its review counter is the size of the set of name positions whose parse asks for review, hence at most the customer count. Its inserts are every name's block, name `i` under the `i`-th id the store handed back. |
| Consolidation.NameEventsIds | pysrc/chwdata/retail_orders.py:340-356 | One name inserts exactly one customer, under the id it was given, and links exactly its own orders, in fetch order. |
| Consolidation.PassIds | pysrc/chwdata/retail_orders.py:316-356 | Across the pass the customer inserts carry exactly the ids the store handed back, one per name in order. The links carry every order of every name exactly once, name after name, in fetch order. |
| Consolidation.PassLinksFollowCustomer | pysrc/chwdata/retail_orders.py:341-356 | Every link the pass inserts names the customer inserted most recently before it. |
| OrderReport.WriteTopCustomerOrderReport | pysrc/chwdata/retail_orders.py:413-442 | The loop writes the title and then, for each row, the reference lines below. A header comes when it is the first row or its customer differs from the previous row's. Its item line opens a new order when it is the first row or its order id differs from the previous row's. The trailer comes last. |
| OrderReport.ReportItemRows | pysrc/chwdata/retail_orders.py:429-439 | Every row appears exactly once as an item line, in query order. |
| OrderReport.ReportFrame | pysrc/chwdata/retail_orders.py:416-442 | The report opens with the title, ends with the trailer, and its item lines carry exactly the rows, in order. |
| OrderReport.ReportHeaders | pysrc/chwdata/retail_orders.py:422-427 | The headers name exactly the customers of the rows. When each customer's rows are contiguous, no customer gets a second header. |
| OrderReport.OrderIdNotReset | pysrc/chwdata/retail_orders.py:418-436 | An order id repeated across a customer change prints as a continuation item under the new customer's header: the order test ignores the customer. |
| OrderReport.InterleavedCustomersRepeatHeader | pysrc/chwdata/retail_orders.py:245 | The query sorts by e-mail address, not by customer id. Rows of customer 1, then 2, then 1 give headers for 1, 2 and 1 again. |

## Left out

- Database plumbing is not modelled: connections, cursors, prepared statements, `commit`, and the text of the SQL statements. The SQL's contribution is modelled as follows:
  - Each name's rows arrive as a non-empty sequence, first row apart, standing in for `fetchone` and then the loop.
  - The `ORDER BY FirstDate` is the `SortedByFirstDate` precondition where a lemma needs it.
  - The distinct names arrive as a sequence of groups.
- MariaDB collation is not modelled. The grouping and matching of `FullName` may be case- and trailing-space-insensitive in the store. The model takes each group's rows as given.
- Consolidation.CreateCustomersFromLegacy: how the store picks the ids it returns through `lastrowid` is not modelled. They are a parameter, one per name, and no contract depends on their values or on their being distinct.
- Atomicity is not modelled. An exception part-way through the pass leaves no commit, and the model has no failure paths.
- Names.ParseFullname: `FullName` is a string. NULL cannot occur because the name query excludes it.
- LegacyOrders.CustomerInfoFromLegacyOrders: `Email1` is modelled as a non-NULL string, so neither effect of a NULL is modelled:
  - A NULL on the last row of a name reaches `get_email_addresses` as `prevEmail1` (line 488). Its `.split()` raises, ending the pass.
  - A NULL on an earlier row raises nothing. A NULL on a row after the first whose previous row is not NULL is recorded as a change (lines 482-484), and so is the next non-NULL row after it; both ids are listed in the conversion note. A NULL on row 0, or right after another NULL, is not recorded itself, because the loop starts at row 1 (line 477) and `None != None` is false (line 482).
- LegacyOrders.CustomerInfoFromLegacyOrders: `FirstDate` is an optional date and NULL sorts first, as in MariaDB.
- The producers pass in `pysrc/chwdata/wines.py`, the command-line entry points in `pysrc/main.py`, and the logging and final `print` of the counters are not part of this model.
- OrderReport.WriteTopCustomerOrderReport: the text layout of each line (`str.format` padding and alignment, the markdown table) is not modelled. The columns other than the customer id, the order id and the item are dropped.
- The docstring of `parse_fullname` mentions stripping leading and trailing non-alphanumeric characters. The code does no such thing, so the model does not either.
- Unicode case mapping and normalisation play no part. Titles and suffixes are compared exactly, as the source does.
