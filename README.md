# Cost Manager ledger, modelled in Dafny

This project models the credit-sales ledger behind the "Cost Manager" HTTP
service (`Build-own-server/main.py`). The service keeps three tables:

- `customers`, each row with a unique phone;
- `sales`, each row owned by a customer, carrying `total_price`, `paid` and `remaining`;
- `payments`, each row against a sale.

It also keeps a category catalog. The model covers the writing requests
(`create_customer`, `create_sale`, `add_payment`), the startup migration
from the legacy layout (`init_db`) and the read-only reports (`list_customers`,
`get_customer`, `get_sale`, `monthly_summary`, `outstanding_sales`).

Layout:

- `text.dfy` (`Text`): TEXT collation order, which is lexicographic by code point, and Python's `f"{n:0Wd}"` integer formatting.
- `dates.dfy` (`Dates`): how `str(date)` formats a date, the month window of the monthly summary, and `BETWEEN`.
- `seqs.dfy` (`Seqs`): `WHERE` as a filter, `SUM(...)` as a fold that yields 0 over no rows, and `ORDER BY` as a sort.
- `schema.dfy` (`Schema`): the rows, the tables with their `AUTOINCREMENT` counters, the error datatype, the lookups by id, and the consistency predicates. The predicates are:
  - well-formed ids and unique phones;
  - `remaining == total_price - paid`;
  - a sale's payment rows add up to its `paid`.
- `catalog.dfy` (`Catalog`): `CATEGORIES`, its fallback, and the category check.
- `operations.dfy` (`Operations`): each writing request as a function from the tables before to the result and the tables after.
- `migration.dfy` (`Migration`): `init_db` as a function on the tables.
- `reports.dfy` (`Reports`): the read-only queries.
- `ledger.dfy` (`CostManager`): the store as class `Ledger`. Its fields are the tables and counters, which its methods update in place.
  - `InitDb` runs the migration loops row by row.
  - Each writing method is proved to leave exactly the state its function in `Operations` describes, and to keep the store well formed.

Modelling choices:

- Money is a whole number of cents (`int`), so the balance equalities are exact.
- Dates are strings, compared in TEXT collation order. `BETWEEN` is inclusive at both ends.
- Ids are handed out by counters that mirror SQLite's `sqlite_sequence`. A new row gets the last id plus one.
- The `created_at` timestamp is the parameter `now`.
- Whether the legacy layout is present is the field `legacy` of the store. It holds the rows of the old tables.

Behaviour of the code that the model keeps as written:

- `monthly_summary`'s `outstanding_balance` sums `remaining` over every sale, negative values included, unlike `outstanding_sales`' `total_outstanding`, which sums only the positive ones. `Reports.OutstandingCountsCredit` exhibits a store where these two balances differ. `Reports.OutstandingAgrees` shows they agree when no `remaining` is negative.
- `add_payment` never checks that the amount is positive, so `paid` can decrease. `create_sale` never checks `0 <= paid <= total_price`. Properties that need those facts take them as explicit preconditions.
- `create_sale` does not check that the sale id it hands out is free of payment rows. After a migration whose legacy payments name a sale id that no migrated sale has, a later sale inherits those rows when the id it is handed equals that `sale_id`. For example, with two migrated sales, a dangling `sale_id` 10 is inherited by the eighth new sale. A dangling `sale_id` of 0 or below is never inherited. `Operations.CreateSaleKeepsBooks` therefore requires that every payment names an existing sale, and `Operations.FreshSaleUnpaid` is the fact it rests on.
- The migration writes customer id 1 into every migrated sale, whatever id the legacy customer received, and copies payment `sale_id`s unchanged. The model copies this literally. Only on fresh tables does it prove that the links resolve (`Migration.MigrationOnFreshTables`, `Migration.MigratedPaymentLinks`). When the `customers` table already held rows, the legacy customer gets a later id while the sales still go to id 1 (`Migration.MigrationOnExistingCustomers`).
- The migration's insert of the legacy customer fails on the phone's `UNIQUE` constraint when a customer already holds "0000000000". `init_db` then aborts: the legacy tables stay, nothing is copied, and the service does not start. `Migration.Migrate` returns the duplicate-phone error in that case, and `CostManager.Ledger.InitDb` reports failure and leaves the store unchanged.
- The month window prints the year without padding (`f"{year}"`), while stored dates pad it to four digits. The window is exact only for four-digit years (`Dates.MonthWindowExact`).

## Model

| member | source | states |
|---|---|---|
| Catalog.Check | Build-own-server/main.py:188-191 | a sale is accepted exactly when its category is in the catalog and its sub-category is in that category's list; an unknown category is reported before an unknown sub-category |
| Catalog.InForce | Build-own-server/main.py:14-18 | the catalog in force is the parsed `categories.json` when the file is found, and otherwise exactly `{"misc": ["other"]}` |
| Catalog.FallbackAccepts | Build-own-server/main.py:14-18 | without `categories.json` the catalog is `{"misc": ["other"]}`: only "misc"/"other" is accepted, and every other category is unknown |
| Text.Le | Build-own-server/main.py:151 | SQLite's BINARY order on TEXT, on which `ORDER BY` and `BETWEEN` rest: lexicographic by code point, with a prefix sorting first; `Text.LeTotal`, `Text.LeTransitive` and `Text.LeAntisymmetric` prove it a total order |
| Text.LeTotal | Build-own-server/main.py:151 | any two TEXT values are comparable |
| Text.LeTransitive | Build-own-server/main.py:151 | the TEXT order is transitive |
| Text.LeAntisymmetric | Build-own-server/main.py:151 | two TEXT values that each sort no later than the other are equal |
| Text.FormatInt | Build-own-server/main.py:273-274 | Python's `f"{n:0Wd}"`: the result has exactly max(W, the digit count of `n` plus its sign) characters, zero-padded after the sign; its digits, after the sign of a negative number, read back as the absolute value of `n` |
| Dates.IsoDate | Build-own-server/main.py:203 | `str(date)` for a date in range is ten characters "YYYY-MM-DD", whose year, month and day read back from their positions |
| Dates.MonthLabel | Build-own-server/main.py:294 | the label `f"{year}-{month:02d}"` of a four-digit year is seven characters whose year and month read back; a year in 0..999 gives a shorter label |
| Dates.MonthStart | Build-own-server/main.py:273 | for a four-digit year the window's lower bound is the stored form of the month's first day |
| Dates.MonthEnd | Build-own-server/main.py:274 | for a four-digit year the window's upper bound is the stored form of day 31 of the month, whatever the month's length |
| Dates.Between | Build-own-server/main.py:279 | `BETWEEN` is inclusive at both ends in TEXT order, and holds for no value when the upper bound sorts before the lower |
| Dates.FourDigitYear | Build-own-server/main.py:203 | `str(date)` prints a year in 1..9999 with exactly four characters, and a year from 1000 up prints the same with or without padding |
| Dates.TwoDigitMonth | Build-own-server/main.py:273-274 | `f"{month:02d}"` prints each month in 0..99 as two characters |
| Dates.MonthWindowExact | Build-own-server/main.py:273-274 | for a year in 1000..9999 and a month in 1..12, a date from `str(date)` lies inclusively between "Y-MM-01" and "Y-MM-31" exactly when it is in that year and month, short months included |
| Seqs.Filter | Build-own-server/main.py:164 | `WHERE`: a row is in the result exactly when it is in the table and satisfies the condition, and the result is no longer than the table |
| Seqs.FilterMultiset | Build-own-server/main.py:164 | `WHERE` keeps each row that satisfies the condition exactly as often as the table holds it, and no other row |
| Seqs.SumOf | Build-own-server/main.py:167-169 | `SUM(column) or 0` and Python's `sum(...)`: 0 over no rows; `Seqs.SumOfConcat` makes it additive over concatenation, `Seqs.SumOfNonNegative` keeps it non-negative over non-negative rows, and `Seqs.SumOfPermutation` makes it independent of row order |
| Seqs.SumOfConcat | Build-own-server/main.py:167-169 | the sum over two row lists put together is the sum of their sums |
| Seqs.SumOfNonNegative | Build-own-server/main.py:316 | a sum over rows whose values are all non-negative is non-negative |
| Seqs.SortBy | Build-own-server/main.py:151 | `ORDER BY` a TEXT column: the result is sorted by the key (ascending or `DESC`) and is a permutation of the rows |
| Seqs.SumOfPermutation | Build-own-server/main.py:167-169 | a `sum(...)` over rows does not depend on their order, so summing the sorted list equals summing the table's rows |
| Schema.FindCustomer | Build-own-server/main.py:159-162 | `SELECT ... FROM customers WHERE id = ?`: the customer found is in the table with that id; none is found exactly when no customer has the id |
| Schema.FindSale | Build-own-server/main.py:220-223 | `SELECT * FROM sales WHERE id = ?`: the position found holds a sale with that id; none is found exactly when no sale has the id |
| Schema.FindSaleUnique | Build-own-server/main.py:50 | with `AUTOINCREMENT` ids ascending in the table, the sale found is the only one with its id |
| Schema.PaidForAppend | Build-own-server/main.py:208-211 | appending a payment row adds its amount to the payment total of its own sale and of no other |
| Operations.CreateCustomer | Build-own-server/main.py:134-145 | fails with a duplicate-phone error exactly when the phone is in use, leaving the tables unchanged; otherwise appends one customer with the next id, returns that id, which was fresh, and keeps the tables well formed |
| Operations.CreateSale | Build-own-server/main.py:186-214 | the error order: unknown category, then unknown sub-category (reported with the category and its list), then unknown customer, each leaving the tables unchanged. On success it appends one sale with the next id and the requested fields, with `remaining == total_price - paid`, and returns that id and remaining. It appends the initial payment, dated on the sale date with the note "Initial payment", exactly when `paid > 0`, and keeps the tables well formed |
| Operations.CreateSaleAccepted | Build-own-server/main.py:200-214 | a request that passes all three checks returns the next sale id and `total_price - paid`, appends exactly the new sale and, when `paid > 0`, its initial payment, and changes nothing else |
| Operations.CreateSaleInitialPayment | Build-own-server/main.py:207-211 | the new sale's payment rows gain exactly `paid` when `paid > 0` and nothing otherwise |
| Operations.FreshSaleUnpaid | Build-own-server/main.py:205-211 | when every payment names an existing sale, a sale id beyond the last one handed out has no payment rows, so a new sale starts with only its initial payment |
| Operations.CreateSaleKeepsBooks | Build-own-server/main.py:200-211 | for `paid >= 0`, on books whose payment rows all name an existing sale, every sale stays balanced and its payment rows keep adding up to its `paid` |
| Operations.CreateSaleKeepsPaymentsResolve | Build-own-server/main.py:205-211 | after a sale is created every payment row still names an existing sale, the initial payment included |
| Operations.CreateSaleKeepsBounds | Build-own-server/main.py:200-204 | a request with `0 <= paid <= total_price` keeps every sale within `0 <= paid <= total_price` |
| Operations.AddPayment | Build-own-server/main.py:217-237 | an unknown sale fails as not found, and an amount above the sale's remaining fails as an overpayment reporting that remaining; both leave the tables unchanged. It succeeds exactly when the sale exists and the amount is at most its remaining. On success it sets `paid' = paid + amount` and `remaining' = remaining - amount`, so their sum is kept and `remaining' >= 0`, which it returns. It changes no other sale and appends one payment row `(sale_id, amount, payment_date, note)` |
| Operations.AddPaymentKeepsBooks | Build-own-server/main.py:225-234 | whatever the amount, every sale stays balanced and its payment rows keep adding up to its `paid` |
| Operations.AddPaymentKeepsPaymentsResolve | Build-own-server/main.py:220-234 | every payment row keeps naming an existing sale |
| Operations.AddPaymentKeepsBounds | Build-own-server/main.py:225-229 | with a non-negative amount every sale stays within `0 <= paid <= total_price` and no sale's `paid` decreases |
| Operations.ScenarioCreateCustomer | Build-own-server/main.py:134-143 | the first customer created on empty tables gets id 1 |
| Operations.ScenarioCreateSale | Build-own-server/main.py:186-214 | a sale of 200 with 50 paid gets id 1 and `remaining` 150 and records the initial payment of 50; the sub-category "bogus" is refused with the category's list |
| Operations.ScenarioSettle | Build-own-server/main.py:220-237 | a payment of 150 against that sale brings `paid` to 200 and `remaining` to 0 and records a second payment row |
| Operations.ScenarioRefuse | Build-own-server/main.py:225-226 | a further payment of 1 against the settled sale is refused as an overpayment reporting 0 |
| Operations.SettlementScenario | Build-own-server/main.py:134-237 | a customer is created with id 1; a sale of 200 with 50 paid leaves 150; a payment of 150 settles it to 0; a further payment of 1 is refused as an overpayment reporting 0; an unknown sub-category is refused with the category's list |
| Migration.MigratedSales | Build-own-server/main.py:85-91 | the legacy sales re-inserted one by one give one row per legacy row |
| Migration.MigratedPayments | Build-own-server/main.py:94-100 | the legacy payments re-inserted one by one give one row per legacy row |
| Migration.MigratedSalesAt | Build-own-server/main.py:87-91 | the k-th re-inserted sale copies the k-th legacy row, under the id k positions after the last one handed out |
| Migration.MigratedPaymentsAt | Build-own-server/main.py:96-100 | the k-th re-inserted payment copies the k-th legacy row, under the id k positions after the last one handed out |
| Migration.MigratedSalesKeyed | Build-own-server/main.py:88-91 | re-inserting legacy sales keeps sale ids positive, ascending and within the counter |
| Migration.MigratedPaymentsKeyed | Build-own-server/main.py:97-100 | re-inserting legacy payments keeps payment ids positive, ascending and within the counter |
| Migration.Migrated | Build-own-server/main.py:78-100 | the legacy customer and the copied rows, appended after the existing ones, keep well-formed tables well formed when no customer holds the legacy phone |
| Migration.Migrate | Build-own-server/main.py:20-107 | without the legacy layout `init_db` changes nothing, so a second run is a no-op. With it, it fails with a duplicate-phone error exactly when a customer already holds "0000000000"; otherwise it yields the migrated tables, which stay well formed |
| Migration.MigrateFresh | Build-own-server/main.py:39-104 | on the fresh tables of a legacy store the legacy customer gets id 1 and the legacy sales and payments get ids 1..n in table order |
| Migration.MigrationCopiesRows | Build-own-server/main.py:78-100 | existing rows stay and "Legacy Customer" is appended. Every legacy sale reappears in order with item, price, date, paid and remaining, the next sale id, customer id 1 and category "misc"/"other", which the fallback catalog accepts. Every legacy payment reappears in order with its sale id, amount, date and note, and the next payment id |
| Migration.FindMigratedSale | Build-own-server/main.py:88-91 | legacy sales migrated into an empty table get ids 1..n in order, so id k finds the copy of the k-th legacy row |
| Migration.MigrationOnFreshTables | Build-own-server/main.py:78-91 | on fresh tables the only customer is the legacy customer, with id 1, so every migrated sale's customer exists |
| Migration.MigratedPaymentLinks | Build-own-server/main.py:82-100 | on fresh tables a migrated payment names a migrated sale exactly when its legacy sale id is in 1..n, and then it names the copy of that legacy row |
| Migration.MigrationOnExistingCustomers | Build-own-server/main.py:78-90 | when `customers` already held rows, the legacy customer gets a later id than 1, while every migrated sale is still owned by id 1 |
| Migration.MigrationKeepsBalance | Build-own-server/main.py:88-91 | balanced legacy rows give balanced sales, since `paid` and `remaining` are copied, not recomputed |
| Reports.ViewOf | Build-own-server/main.py:244-246 | a sale has a joined row exactly when its customer exists, and the joined row carries that sale |
| Reports.Joined | Build-own-server/main.py:244-246 | `sales JOIN customers`: every joined row is a sale of the table with its customer's name, phone and location, and every sale whose customer exists appears |
| Reports.JoinedMultiset | Build-own-server/main.py:244-246 | the join yields each sale whose customer exists exactly as often as the sales table holds it, and no other row |
| Reports.JoinedKeepsAll | Build-own-server/main.py:307-309 | when every sale's customer exists the join drops no sale, so the sum of `remaining` over the joined rows is the sum over the sales |
| Reports.ListCustomers | Build-own-server/main.py:147-153 | every customer is listed exactly once, sorted by name |
| Reports.GetCustomer | Build-own-server/main.py:156-179 | an unknown id is not found. Otherwise the customer with that id is returned with exactly their sales, newest first, and `total_purchased`, `total_paid` and `total_remaining` equal the sums over their sales |
| Reports.SumOfBalanced | Build-own-server/main.py:167-169 | over balanced sales the sum of `remaining` is the sum of `total_price` less the sum of `paid` |
| Reports.CustomerTotalsBalance | Build-own-server/main.py:167-178 | with balanced sales a customer's `total_remaining` is `total_purchased - total_paid` |
| Reports.GetSale | Build-own-server/main.py:253-269 | not found exactly when no sale has the id or its customer is missing. Otherwise it returns that sale joined with its customer, and exactly its payment rows, oldest first |
| Reports.SalePaymentsAddUp | Build-own-server/main.py:266-269 | when the books are kept, the payments listed with a sale add up to its `paid`, and `remaining` is the price less them |
| Reports.PaymentsInMonth | Build-own-server/main.py:278-281 | a payment is selected exactly when it is in the table and its date lies in the month's window, each as often as the table holds it, so `COUNT(*)` counts each such row once |
| Reports.SalesInMonth | Build-own-server/main.py:284-287 | a sale is selected exactly when it is in the table and its date lies in the month's window, each as often as the table holds it, so `COUNT(*)` counts each such row once |
| Reports.Summarize | Build-own-server/main.py:272-300 | the month label is "Y-MM". The payment count and sum are those of the payments in the month's window, the sale count and total those of the sales in it, and the outstanding balance is the sum of `remaining` over every sale, unfiltered. The counts are bounded by the table sizes, and a sum over no rows is 0 |
| Reports.SummaryCountsTheMonth | Build-own-server/main.py:273-288 | for a four-digit year, a payment or sale dated by `str(date)` is counted exactly when it falls in the requested year and month |
| Reports.EmptyMonth | Build-own-server/main.py:279-299 | a month with no dated payment or sale reports 0 for both counts and both sums |
| Reports.OutstandingSales | Build-own-server/main.py:303-321 | lists oldest first exactly the sales with `remaining > 0` whose customer exists, joined with that customer, each as often as the join yields it (a permutation of the joined rows). The total is the sum of `remaining` over all sales with `remaining > 0`, and it is never negative |
| Reports.NothingOutstanding | Build-own-server/main.py:315-320 | with no sale owing anything the list is empty and the total is 0 |
| Reports.OutstandingTotalIsListed | Build-own-server/main.py:306-320 | when every sale's customer exists the total is the sum over the listed sales |
| Reports.OutstandingAgrees | Build-own-server/main.py:290-320 | with no negative `remaining` the monthly `outstanding_balance` equals the outstanding total |
| Reports.OutstandingAgreesOnBoundedBooks | Build-own-server/main.py:290-320 | when the books are kept and every sale has `0 <= paid <= total_price`, the two balances agree |
| Reports.OutstandingCountsCredit | Build-own-server/main.py:290-316 | a sale paid 300 beyond its price next to one owing 500 gives a monthly balance of 200 and an outstanding total of 500 |
| CostManager.Ledger.Open | Build-own-server/main.py:9-18 | the store opens with the given tables, legacy layout and catalog, and is well formed; beside a legacy layout `sales` and `payments` are the freshly created empty tables, while `customers` may already hold rows |
| CostManager.Ledger.InitDb | Build-own-server/main.py:20-107 | succeeds exactly when `Migration.Migrate` does. Then the row-by-row migration loops leave exactly the tables it describes and the legacy tables are gone. On failure the store is unchanged and the legacy tables stay. The store stays well formed |
| CostManager.Ledger.CopySales | Build-own-server/main.py:85-91 | the loop appends exactly the migrated legacy sales, in order, under the next ids, and changes no other table |
| CostManager.Ledger.CopyPayments | Build-own-server/main.py:94-100 | the loop appends exactly the migrated legacy payments, in order, under the next ids, and changes no other table |
| CostManager.Ledger.CreateCustomer | Build-own-server/main.py:134-145 | leaves exactly the result and tables `Operations.CreateCustomer` describes, and keeps the store well formed |
| CostManager.Ledger.CreateSale | Build-own-server/main.py:185-214 | leaves exactly the result and tables `Operations.CreateSale` describes, against the store's catalog, and keeps the store well formed |
| CostManager.Ledger.InsertSale | Build-own-server/main.py:200-214 | for a request that passed its checks, the inserts leave exactly the result and tables `Operations.CreateSale` describes, and keep the store well formed |
| CostManager.Ledger.AddPayment | Build-own-server/main.py:216-237 | leaves exactly the result and tables `Operations.AddPayment` describes, and keeps the store well formed |

## Left out

- HTTP wiring: FastAPI routing, pydantic request models, status codes and JSON response shapes. Errors are the `Error` datatype. The message texts of the category errors are not modelled. `InvalidSubCategory` carries the category and its list of sub-categories, as printed. `InvalidCategory` carries the set of category names, which loses the order in which `list(CATEGORIES.keys())` prints them.
- Storage and I/O: the aiosqlite connections, async execution, SQL text, `print` output and `uvicorn` startup.
- Legacy-layout detection (`sqlite_master` and `PRAGMA table_info`, lines 23-36): it is abstracted as the store's `legacy` field. `Some` means a `sales` table without `customer_id` is present, together with its rows.
- Reading `categories.json` (lines 14-18): file I/O. The parsed catalog is a parameter of `Catalog.InForce`, and the fallback is a constant.
- IEEE floating point of `REAL` columns and `float` fields: money is whole cents.
- Concurrency between requests, including the read-then-update race in `add_payment`: each request is one atomic step.
- SQLite foreign-key enforcement, which is off by default.
- NULL values in legacy rows.
- The clock behind `CURRENT_TIMESTAMP`: it is the `now` parameter.
- `get_categories` and `list_sales`: `get_categories` returns the catalog as it is. `list_sales` is the same join as `get_sale` without the id filter, newest first.
- `Build-own-server/server.py` is not part of this model. It wraps the HTTP app and has no logic of its own.
- Reports.Joined: joins each sale with the first customer that has its id. This equals SQL's join when customer ids are unique, which well-formed tables guarantee.
- Seqs.SortBy: fixes one order of rows with equal keys, while the store leaves that order unspecified. The contracts state only sortedness and permutation, so none depends on it.
- The `CostManager.Ledger` writing methods require that startup has run (`legacy` is `None`), since the service accepts requests only after `init_db`.
