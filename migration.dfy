/** The startup migration from the legacy layout with no customers (a
    `sales` table without a `customer_id` column, and its `payments`) to the
    current layout.

    The legacy tables are renamed aside and the current tables are created
    (`customers` only if it is missing, so rows it already holds stay), one
    "Legacy Customer" is inserted, every legacy sale is re-inserted under the
    hard-coded customer id 1 with category "misc" / "other", every legacy
    payment is re-inserted with its sale id as it was, and the legacy tables
    are dropped. */
module Migration {
  import opened Schema
  import opened Catalog

  /** The columns of a legacy sale row the migration reads, positions 3 to 7. */
  datatype LegacySale = LegacySale(item: string, totalPrice: int, saleDate: string, paid: int, remaining: int)

  /** The columns of a legacy payment row the migration reads, positions 1 to 4. */
  datatype LegacyPayment = LegacyPayment(saleId: int, amount: int, paymentDate: string, note: string)

  /** The rows of the legacy `sales` and `payments` tables, in table order. */
  datatype LegacyTables = LegacyTables(sales: seq<LegacySale>, payments: seq<LegacyPayment>)

  /** The owner the migration writes into every migrated sale, without looking up
      the id the legacy customer actually received. */
  const LegacyCustomerId := 1
  const LegacyName := "Legacy Customer"
  const LegacyPhone := "0000000000"
  const LegacyLocation := "Unknown"
  const LegacyCategory := "misc"
  const LegacySubCategory := "other"

  function LegacyCustomer(id: int, now: string): Customer {
    Customer(id, LegacyName, LegacyPhone, LegacyLocation, now)
  }

  /** The current-layout row that re-inserts a legacy sale under id `id`. */
  function MigratedSale(l: LegacySale, id: int): Sale {
    Sale(id, LegacyCustomerId, l.item, LegacyCategory, LegacySubCategory,
         l.totalPrice, l.saleDate, l.paid, l.remaining)
  }

  function MigratedPayment(l: LegacyPayment, id: int): Payment {
    Payment(id, l.saleId, l.amount, l.paymentDate, l.note)
  }

  /** The columns a sale row carries over from the legacy layout. */
  function AsLegacySale(s: Sale): LegacySale {
    LegacySale(s.item, s.totalPrice, s.saleDate, s.paid, s.remaining)
  }

  function AsLegacyPayment(p: Payment): LegacyPayment {
    LegacyPayment(p.saleId, p.amount, p.paymentDate, p.note)
  }

  /** The legacy sales re-inserted one by one after id `last`, in order. */
  function MigratedSales(ls: seq<LegacySale>, last: nat): (r: seq<Sale>)
    ensures |r| == |ls|
  {
    if ls == [] then []
    else MigratedSales(ls[..|ls| - 1], last) + [MigratedSale(ls[|ls| - 1], last + |ls|)]
  }

  function MigratedPayments(lp: seq<LegacyPayment>, last: nat): (r: seq<Payment>)
    ensures |r| == |lp|
  {
    if lp == [] then []
    else MigratedPayments(lp[..|lp| - 1], last) + [MigratedPayment(lp[|lp| - 1], last + |lp|)]
  }

  /** The tables once the legacy rows `l` are copied into `t`: the legacy
      customer appended under the next id, then every legacy sale and every
      legacy payment in table order. */
  function Migrated(t: Tables, l: LegacyTables, now: string): (r: Tables)
    ensures WellFormed(t) && !PhoneTaken(t.customers, LegacyPhone) ==> WellFormed(r)
  {
    var cid := t.lastCustomerId + 1;
    KeyedAppend(t.customers, LegacyCustomer(cid, now), CustomerKey, t.lastCustomerId);
    MigratedSalesKeyed(t.sales, l.sales, t.lastSaleId);
    MigratedPaymentsKeyed(t.payments, l.payments, t.lastPaymentId);
    Tables(
      t.customers + [LegacyCustomer(cid, now)],
      t.sales + MigratedSales(l.sales, t.lastSaleId),
      t.payments + MigratedPayments(l.payments, t.lastPaymentId),
      cid,
      t.lastSaleId + |l.sales|,
      t.lastPaymentId + |l.payments|)
  }

  /** `init_db` on tables `t`. With no legacy layout present nothing changes.
      With one, the insert of the legacy customer violates the phone's
      `UNIQUE` constraint when a customer already holds the legacy phone: the
      startup then fails and writes nothing. Otherwise the rows are copied. */
  function Migrate(t: Tables, legacy: Option<LegacyTables>, now: string): (r: Result<Tables>)
    ensures legacy.None? ==> r == Ok(t)
    ensures r.Err? <==> legacy.Some? && PhoneTaken(t.customers, LegacyPhone)
    ensures r.Err? ==> r.error == DuplicatePhone
    ensures legacy.Some? && r.Ok? ==> r.value == Migrated(t, legacy.value, now)
    ensures WellFormed(t) && r.Ok? ==> WellFormed(r.value)
  {
    match legacy
    case None => Ok(t)
    case Some(l) =>
      if PhoneTaken(t.customers, LegacyPhone) then Err(DuplicatePhone)
      else Ok(Migrated(t, l, now))
  }

  lemma {:induction false} MigratedSalesAt(ls: seq<LegacySale>, last: nat, k: nat)
    requires k < |ls|
    ensures MigratedSales(ls, last)[k] == MigratedSale(ls[k], last + k + 1)
  {
    if k < |ls| - 1 {
      MigratedSalesAt(ls[..|ls| - 1], last, k);
    }
  }

  lemma {:induction false} MigratedPaymentsAt(lp: seq<LegacyPayment>, last: nat, k: nat)
    requires k < |lp|
    ensures MigratedPayments(lp, last)[k] == MigratedPayment(lp[k], last + k + 1)
  {
    if k < |lp| - 1 {
      MigratedPaymentsAt(lp[..|lp| - 1], last, k);
    }
  }

  lemma {:induction false} MigratedSalesKeyed(rows: seq<Sale>, ls: seq<LegacySale>, last: nat)
    ensures Keyed(rows, SaleKey, last) ==> Keyed(rows + MigratedSales(ls, last), SaleKey, last + |ls|)
  {
    if ls != [] {
      var init := ls[..|ls| - 1];
      MigratedSalesKeyed(rows, init, last);
      var x := MigratedSale(ls[|ls| - 1], last + |ls|);
      assert rows + MigratedSales(ls, last) == (rows + MigratedSales(init, last)) + [x];
      KeyedAppend(rows + MigratedSales(init, last), x, SaleKey, last + |init|);
    } else {
      assert rows + [] == rows;
    }
  }

  lemma {:induction false} MigratedPaymentsKeyed(rows: seq<Payment>, lp: seq<LegacyPayment>, last: nat)
    ensures Keyed(rows, PaymentKey, last) ==> Keyed(rows + MigratedPayments(lp, last), PaymentKey, last + |lp|)
  {
    if lp != [] {
      var init := lp[..|lp| - 1];
      MigratedPaymentsKeyed(rows, init, last);
      var x := MigratedPayment(lp[|lp| - 1], last + |lp|);
      assert rows + MigratedPayments(lp, last) == (rows + MigratedPayments(init, last)) + [x];
      KeyedAppend(rows + MigratedPayments(init, last), x, PaymentKey, last + |init|);
    } else {
      assert rows + [] == rows;
    }
  }

  /** Re-inserting legacy sales after `rows` keeps `rows` in front and puts the
      copy of the k-th legacy sale at position |rows| + k. */
  lemma AppendedSales(rows: seq<Sale>, ls: seq<LegacySale>, last: nat)
    ensures var r := rows + MigratedSales(ls, last);
      && |r| == |rows| + |ls|
      && r[..|rows|] == rows
      && forall k :: 0 <= k < |ls| ==> r[|rows| + k] == MigratedSale(ls[k], last + k + 1)
  {
    var ms := MigratedSales(ls, last);
    var r := rows + ms;
    assert r[..|rows|] == rows;
    forall k | 0 <= k < |ls|
      ensures r[|rows| + k] == MigratedSale(ls[k], last + k + 1)
    {
      assert r[|rows| + k] == ms[k];
      MigratedSalesAt(ls, last, k);
    }
  }

  lemma AppendedPayments(rows: seq<Payment>, lp: seq<LegacyPayment>, last: nat)
    ensures var r := rows + MigratedPayments(lp, last);
      && |r| == |rows| + |lp|
      && r[..|rows|] == rows
      && forall k :: 0 <= k < |lp| ==> r[|rows| + k] == MigratedPayment(lp[k], last + k + 1)
  {
    var mp := MigratedPayments(lp, last);
    var r := rows + mp;
    assert r[..|rows|] == rows;
    forall k | 0 <= k < |lp|
      ensures r[|rows| + k] == MigratedPayment(lp[k], last + k + 1)
    {
      assert r[|rows| + k] == mp[k];
      MigratedPaymentsAt(lp, last, k);
    }
  }

  /** Row `s` is the re-inserted copy of legacy sale `x` under id `id`: the
      legacy columns, owner 1 and the category pair the fallback catalog
      accepts. */
  ghost predicate CopiedSale(s: Sale, x: LegacySale, id: int) {
    && AsLegacySale(s) == x && s.id == id && s.customerId == LegacyCustomerId
    && Check(Fallback, s.category, s.subCategory) == Accepted
  }

  /** Row `p` is the re-inserted copy of legacy payment `x` under id `id`. */
  ghost predicate CopiedPayment(p: Payment, x: LegacyPayment, id: int) {
    AsLegacyPayment(p) == x && p.id == id
  }

  lemma MigratedSaleCopied(x: LegacySale, id: int)
    ensures CopiedSale(MigratedSale(x, id), x, id)
  {
    assert Fallback["misc"] == ["other"];
  }

  /** No data is lost: the rows already in the tables stay, one legacy customer
      is added, and every legacy sale and payment reappears, in order, with every
      column it had. Each migrated sale is owned by customer id 1 and carries the
      fallback catalog's category and sub-category. */
  lemma MigrationCopiesRows(t: Tables, l: LegacyTables, now: string)
    ensures var r := Migrated(t, l, now);
      && r.customers == t.customers + [LegacyCustomer(t.lastCustomerId + 1, now)]
      && |r.sales| == |t.sales| + |l.sales|
      && r.sales[..|t.sales|] == t.sales
      && (forall k :: 0 <= k < |l.sales| ==> CopiedSale(r.sales[|t.sales| + k], l.sales[k], t.lastSaleId + k + 1))
      && |r.payments| == |t.payments| + |l.payments|
      && r.payments[..|t.payments|] == t.payments
      && (forall k :: 0 <= k < |l.payments| ==>
            CopiedPayment(r.payments[|t.payments| + k], l.payments[k], t.lastPaymentId + k + 1))
  {
    var r := Migrated(t, l, now);
    assert r.sales == t.sales + MigratedSales(l.sales, t.lastSaleId);
    assert r.payments == t.payments + MigratedPayments(l.payments, t.lastPaymentId);
    AppendedSales(t.sales, l.sales, t.lastSaleId);
    AppendedPayments(t.payments, l.payments, t.lastPaymentId);
    forall k | 0 <= k < |l.sales|
      ensures CopiedSale(r.sales[|t.sales| + k], l.sales[k], t.lastSaleId + k + 1)
    {
      MigratedSaleCopied(l.sales[k], t.lastSaleId + k + 1);
    }
    forall k | 0 <= k < |l.payments|
      ensures CopiedPayment(r.payments[|t.payments| + k], l.payments[k], t.lastPaymentId + k + 1)
    {
      assert r.payments[|t.payments| + k] == MigratedPayment(l.payments[k], t.lastPaymentId + k + 1);
    }
  }

  /** The migration of a legacy store: its current tables start out empty. */
  lemma MigrateFresh(l: LegacyTables, now: string)
    ensures Migrate(NoTables, Some(l), now).Ok?
    ensures Migrated(NoTables, l, now)
            == Tables([LegacyCustomer(1, now)], MigratedSales(l.sales, 0), MigratedPayments(l.payments, 0),
                      1, |l.sales|, |l.payments|)
  {
  }

  /** Legacy sales migrated into an empty `sales` table get the ids 1..n in
      table order, so id `id` finds the copy of the `id`-th legacy row. */
  lemma FindMigratedSale(ls: seq<LegacySale>, ss: seq<Sale>, id: int)
    requires ss == MigratedSales(ls, 0)
    ensures FindSale(ss, id).Some? <==> 1 <= id <= |ls|
    ensures 1 <= id <= |ls| ==> FindSale(ss, id) == Some(id - 1) && ss[id - 1] == MigratedSale(ls[id - 1], id)
  {
    if 1 <= id <= |ls| {
      MigratedSalesAt(ls, 0, id - 1);
    }
    match FindSale(ss, id)
    case None =>
    case Some(k) =>
      MigratedSalesAt(ls, 0, k);
  }

  /** On the fresh tables of a legacy store the hard-coded owner id 1 is the
      legacy customer, so every migrated sale resolves. */
  lemma MigrationOnFreshTables(l: LegacyTables, now: string)
    ensures var r := Migrated(NoTables, l, now);
      && r.customers == [LegacyCustomer(LegacyCustomerId, now)]
      && SalesResolve(r)
  {
    var r := Migrated(NoTables, l, now);
    var c := LegacyCustomer(LegacyCustomerId, now);
    assert r.sales == MigratedSales(l.sales, 0);
    assert r.customers == [c];
    forall i | 0 <= i < |r.sales|
      ensures FindCustomer(r.customers, r.sales[i].customerId).Some?
    {
      MigratedSalesAt(l.sales, 0, i);
      assert FindCustomer([c], LegacyCustomerId) == Some(c);
    }
  }

  /** On the fresh tables of a legacy store a migrated payment names a migrated
      sale exactly when its legacy sale id lies in 1..n, n the number of legacy
      sales, and then it names the copy of that legacy row. So payment links
      survive exactly when the legacy sale ids were 1..n in table order. */
  lemma MigratedPaymentLinks(l: LegacyTables, now: string, j: int)
    requires 0 <= j < |l.payments|
    ensures var r := Migrated(NoTables, l, now);
      var id := l.payments[j].saleId;
      && r.payments[j].saleId == id
      && (FindSale(r.sales, id).Some? <==> 1 <= id <= |l.sales|)
      && (1 <= id <= |l.sales| ==> FindSale(r.sales, id) == Some(id - 1)
                                   && AsLegacySale(r.sales[id - 1]) == l.sales[id - 1])
  {
    MigrateFresh(l, now);
    MigratedPaymentsAt(l.payments, 0, j);
    FindMigratedSale(l.sales, MigratedSales(l.sales, 0), l.payments[j].saleId);
  }

  /** When the `customers` table already held rows beside the legacy layout,
      the legacy customer receives a later id than 1, yet every migrated sale
      is still written with owner id 1: the sales go to whichever customer
      holds id 1, not to the legacy customer. */
  lemma MigrationOnExistingCustomers(t: Tables, l: LegacyTables, now: string, k: int)
    requires t.lastCustomerId >= 1
    requires 0 <= k < |l.sales|
    ensures var r := Migrated(t, l, now);
      && r.customers[|t.customers|].id == t.lastCustomerId + 1 != LegacyCustomerId
      && r.sales[|t.sales| + k].customerId == LegacyCustomerId
  {
    MigratedSalesAt(l.sales, t.lastSaleId, k);
  }

  /** Balanced legacy rows migrate to balanced sales: the migration carries
      `paid` and `remaining` over, it does not recompute them. */
  lemma MigrationKeepsBalance(t: Tables, l: LegacyTables, now: string)
    requires forall i :: 0 <= i < |t.sales| ==> Balanced(t.sales[i])
    requires forall k :: 0 <= k < |l.sales| ==> l.sales[k].remaining == l.sales[k].totalPrice - l.sales[k].paid
    ensures var r := Migrated(t, l, now);
            forall i :: 0 <= i < |r.sales| ==> Balanced(r.sales[i])
  {
    var r := Migrated(t, l, now);
    MigrationCopiesRows(t, l, now);
    forall i | 0 <= i < |r.sales|
      ensures Balanced(r.sales[i])
    {
      if i >= |t.sales| {
        assert AsLegacySale(r.sales[|t.sales| + (i - |t.sales|)]) == l.sales[i - |t.sales|];
      } else {
        assert r.sales[..|t.sales|][i] == t.sales[i];
      }
    }
  }
}
