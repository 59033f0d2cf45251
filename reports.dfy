/** The read-only queries of the ledger: the customer list, one customer's
    account, one sale with its payments, the monthly summary and the list of
    sales still owing. Each is a filter, a join, a sum and a sort over the
    tables, and none of them writes. */
module Reports {
  import opened Seqs
  import opened Schema
  import opened Dates

  // ---------------------------------------------------------------------
  // Columns used as sort keys and summands

  function NameOf(c: Customer): string { c.name }
  function SaleDateOf(s: Sale): string { s.saleDate }
  function PaymentDateOf(p: Payment): string { p.paymentDate }
  function TotalOf(s: Sale): int { s.totalPrice }
  function PaidOf(s: Sale): int { s.paid }
  function RemainingOf(s: Sale): int { s.remaining }

  /** `WHERE customer_id = id` on sales. */
  function OfCustomer(id: int): Sale -> bool {
    (s: Sale) => s.customerId == id
  }

  /** `WHERE remaining > 0` on sales. */
  predicate Owes(s: Sale) {
    s.remaining > 0
  }

  // ---------------------------------------------------------------------
  // The sales-with-customer join

  /** A sale row with the owner's `name AS customer_name`, `phone` and `location`. */
  datatype SaleView = SaleView(sale: Sale, customerName: string, phone: string, location: string)

  function ViewDateOf(v: SaleView): string { v.sale.saleDate }
  function ViewRemainingOf(v: SaleView): int { v.sale.remaining }

  /** The joined row of sale `s`, when its customer exists. */
  function ViewOf(cs: seq<Customer>, s: Sale): (r: Option<SaleView>)
    ensures r.Some? <==> FindCustomer(cs, s.customerId).Some?
    ensures r.Some? ==> r.value.sale == s
  {
    match FindCustomer(cs, s.customerId)
    case None => None
    case Some(c) => Some(SaleView(s, c.name, c.phone, c.location))
  }

  /** `sales s JOIN customers c ON s.customer_id = c.id`: the sales whose
      customer exists, each with that customer's columns; sales of a missing
      customer drop out. */
  function Joined(ss: seq<Sale>, cs: seq<Customer>): (r: seq<SaleView>)
    ensures |r| <= |ss|
    ensures forall v :: v in r ==> v.sale in ss && ViewOf(cs, v.sale) == Some(v)
    ensures forall s :: s in ss && ViewOf(cs, s).Some? ==> ViewOf(cs, s).value in r
  {
    if ss == [] then []
    else
      var head := match ViewOf(cs, ss[0]) case None => [] case Some(v) => [v];
      head + Joined(ss[1..], cs)
  }

  /** The join yields each sale whose customer exists exactly as often as the
      sales table holds it, and no other row. */
  lemma {:induction false} JoinedMultiset(ss: seq<Sale>, cs: seq<Customer>)
    ensures forall v :: multiset(Joined(ss, cs))[v] == if ViewOf(cs, v.sale) == Some(v) then multiset(ss)[v.sale] else 0
  {
    if ss != [] {
      JoinedMultiset(ss[1..], cs);
      assert ss == [ss[0]] + ss[1..];
    }
  }

  /** When every sale's customer exists, the join keeps every sale, so a sum
      over the joined rows is the sum over the sales. */
  lemma {:induction false} JoinedKeepsAll(ss: seq<Sale>, cs: seq<Customer>)
    requires forall s :: s in ss ==> FindCustomer(cs, s.customerId).Some?
    ensures |Joined(ss, cs)| == |ss|
    ensures SumOf(Joined(ss, cs), ViewRemainingOf) == SumOf(ss, RemainingOf)
  {
    if ss != [] {
      assert forall s :: s in ss[1..] ==> s in ss;
      JoinedKeepsAll(ss[1..], cs);
      var v := ViewOf(cs, ss[0]).value;
      assert Joined(ss, cs) == [v] + Joined(ss[1..], cs);
      assert Joined(ss, cs)[0] == v && Joined(ss, cs)[1..] == Joined(ss[1..], cs);
    }
  }

  // ---------------------------------------------------------------------
  // list_customers

  /** `SELECT * FROM customers ORDER BY name`: every customer once, by name. */
  function ListCustomers(t: Tables): (r: seq<Customer>)
    ensures SortedBy(r, NameOf, false)
    ensures multiset(r) == multiset(t.customers)
    ensures |r| == |t.customers|
  {
    SortByLength(t.customers, NameOf, false);
    SortBy(t.customers, NameOf, false)
  }

  // ---------------------------------------------------------------------
  // get_customer

  datatype CustomerReport = CustomerReport(
    customer: Customer,
    sales: seq<Sale>,
    totalPurchased: int,
    totalPaid: int,
    totalRemaining: int)

  /** One customer, their sales newest first, and the three totals summed over
      the listed sales. An unknown id is not found. */
  function GetCustomer(t: Tables, id: int): (r: Result<CustomerReport>)
    ensures r.Err? <==> FindCustomer(t.customers, id).None?
    ensures r.Err? ==> r.error == NotFound(CustomerEntity)
    ensures r.Ok? ==>
      var own := Filter(t.sales, OfCustomer(id));
      && r.value.customer in t.customers && r.value.customer.id == id
      && SortedBy(r.value.sales, SaleDateOf, true)
      && multiset(r.value.sales) == multiset(own)
      && (forall s :: s in r.value.sales <==> s in t.sales && s.customerId == id)
      && r.value.totalPurchased == SumOf(own, TotalOf)
      && r.value.totalPaid == SumOf(own, PaidOf)
      && r.value.totalRemaining == SumOf(own, RemainingOf)
  {
    match FindCustomer(t.customers, id)
    case None => Err(NotFound(CustomerEntity))
    case Some(c) =>
      var own := Filter(t.sales, OfCustomer(id));
      var sales := SortBy(own, SaleDateOf, true);
      SortByMembers(own, SaleDateOf, true);
      SumOfPermutation(sales, own, TotalOf);
      SumOfPermutation(sales, own, PaidOf);
      SumOfPermutation(sales, own, RemainingOf);
      Ok(CustomerReport(c, sales, SumOf(sales, TotalOf), SumOf(sales, PaidOf), SumOf(sales, RemainingOf)))
  }

  lemma {:induction false} SumOfBalanced(ss: seq<Sale>)
    requires forall s :: s in ss ==> Balanced(s)
    ensures SumOf(ss, RemainingOf) == SumOf(ss, TotalOf) - SumOf(ss, PaidOf)
  {
    if ss != [] {
      assert forall s :: s in ss[1..] ==> s in ss;
      SumOfBalanced(ss[1..]);
      assert Balanced(ss[0]);
      assert SumOf(ss, RemainingOf) == ss[0].remaining + SumOf(ss[1..], RemainingOf);
      assert SumOf(ss, TotalOf) == ss[0].totalPrice + SumOf(ss[1..], TotalOf);
      assert SumOf(ss, PaidOf) == ss[0].paid + SumOf(ss[1..], PaidOf);
    }
  }

  /** With balanced sales a customer's outstanding total is what they bought
      less what they paid. */
  lemma CustomerTotalsBalance(t: Tables, id: int)
    requires forall i :: 0 <= i < |t.sales| ==> Balanced(t.sales[i])
    requires GetCustomer(t, id).Ok?
    ensures var r := GetCustomer(t, id).value;
            r.totalRemaining == r.totalPurchased - r.totalPaid
  {
    var own := Filter(t.sales, OfCustomer(id));
    forall s | s in own
      ensures Balanced(s)
    {
      var i :| 0 <= i < |t.sales| && t.sales[i] == s;
    }
    SumOfBalanced(own);
  }

  // ---------------------------------------------------------------------
  // get_sale

  datatype SaleReport = SaleReport(sale: SaleView, payments: seq<Payment>)

  /** The sale with this id joined with its customer, and its payment rows
      oldest first. A missing sale and a sale whose customer is missing are
      both not found, since the join yields no row for either. */
  function GetSale(t: Tables, id: int): (r: Result<SaleReport>)
    ensures r.Err? <==> FindSale(t.sales, id).None? || FindCustomer(t.customers, t.sales[FindSale(t.sales, id).value].customerId).None?
    ensures r.Err? ==> r.error == NotFound(SaleEntity)
    ensures r.Ok? ==>
      && r.value.sale.sale == t.sales[FindSale(t.sales, id).value]
      && r.value.sale.sale.id == id
      && Some(r.value.sale) == ViewOf(t.customers, r.value.sale.sale)
      && SortedBy(r.value.payments, PaymentDateOf, false)
      && multiset(r.value.payments) == multiset(Filter(t.payments, ForSale(id)))
      && (forall p :: p in r.value.payments <==> p in t.payments && p.saleId == id)
  {
    match FindSale(t.sales, id)
    case None => Err(NotFound(SaleEntity))
    case Some(i) =>
      match ViewOf(t.customers, t.sales[i])
      case None => Err(NotFound(SaleEntity))
      case Some(v) =>
        var own := Filter(t.payments, ForSale(id));
        var payments := SortBy(own, PaymentDateOf, false);
        SortByMembers(own, PaymentDateOf, false);
        Ok(SaleReport(v, payments))
  }

  /** When the books are kept, the payments listed with a sale add up to its
      `paid`, and its `remaining` is its price less them. */
  lemma SalePaymentsAddUp(t: Tables, id: int)
    requires Books(t)
    requires GetSale(t, id).Ok?
    ensures var r := GetSale(t, id).value;
      && SumOf(r.payments, AmountOf) == r.sale.sale.paid
      && r.sale.sale.remaining == r.sale.sale.totalPrice - SumOf(r.payments, AmountOf)
  {
    var r := GetSale(t, id).value;
    var i := FindSale(t.sales, id).value;
    SumOfPermutation(r.payments, Filter(t.payments, ForSale(id)), AmountOf);
    assert PaidFor(t.payments, t.sales[i].id) == t.sales[i].paid;
  }

  // ---------------------------------------------------------------------
  // monthly_summary

  datatype MonthlySummary = MonthlySummary(
    month: string,
    paymentsReceived: int,
    newSalesTotal: int,
    outstandingBalance: int,
    paymentsCount: int,
    newSalesCount: int)

  /** The payment rows dated inside the month's window. */
  function PaymentsInMonth(t: Tables, year: int, month: int): (r: seq<Payment>)
    ensures forall p :: p in r <==> p in t.payments && Between(p.paymentDate, MonthStart(year, month), MonthEnd(year, month))
    ensures forall p :: multiset(r)[p] ==
              if Between(p.paymentDate, MonthStart(year, month), MonthEnd(year, month)) then multiset(t.payments)[p] else 0
    ensures |r| <= |t.payments|
  {
    FilterMultiset(t.payments, (p: Payment) => Between(p.paymentDate, MonthStart(year, month), MonthEnd(year, month)));
    Filter(t.payments, (p: Payment) => Between(p.paymentDate, MonthStart(year, month), MonthEnd(year, month)))
  }

  /** The sale rows dated inside the month's window. */
  function SalesInMonth(t: Tables, year: int, month: int): (r: seq<Sale>)
    ensures forall s :: s in r <==> s in t.sales && Between(s.saleDate, MonthStart(year, month), MonthEnd(year, month))
    ensures forall s :: multiset(r)[s] ==
              if Between(s.saleDate, MonthStart(year, month), MonthEnd(year, month)) then multiset(t.sales)[s] else 0
    ensures |r| <= |t.sales|
  {
    FilterMultiset(t.sales, (s: Sale) => Between(s.saleDate, MonthStart(year, month), MonthEnd(year, month)));
    Filter(t.sales, (s: Sale) => Between(s.saleDate, MonthStart(year, month), MonthEnd(year, month)))
  }

  /** Counts and sums over the month's payments and sales; every sum of no
      rows is 0. The outstanding balance is summed over every sale, whatever
      its month and sign. */
  function Summarize(t: Tables, year: int, month: int): (r: MonthlySummary)
    ensures r.month == MonthLabel(year, month)
    ensures r.paymentsCount == |PaymentsInMonth(t, year, month)|
    ensures r.paymentsReceived == SumOf(PaymentsInMonth(t, year, month), AmountOf)
    ensures r.newSalesCount == |SalesInMonth(t, year, month)|
    ensures r.newSalesTotal == SumOf(SalesInMonth(t, year, month), TotalOf)
    ensures r.outstandingBalance == SumOf(t.sales, RemainingOf)
    ensures 0 <= r.paymentsCount <= |t.payments| && 0 <= r.newSalesCount <= |t.sales|
    ensures r.paymentsCount == 0 ==> r.paymentsReceived == 0
    ensures r.newSalesCount == 0 ==> r.newSalesTotal == 0
  {
    var ps := PaymentsInMonth(t, year, month);
    var ss := SalesInMonth(t, year, month);
    MonthlySummary(MonthLabel(year, month), SumOf(ps, AmountOf), SumOf(ss, TotalOf),
                   SumOf(t.sales, RemainingOf), |ps|, |ss|)
  }

  /** For a month with a four-digit year, a payment or sale dated by
      `str(date)` is counted exactly when it falls in that month. */
  lemma SummaryCountsTheMonth(t: Tables, year: int, month: int, y: int, m: int, d: int)
    requires 1000 <= year <= 9999 && 1 <= month <= 12
    requires DateInRange(y, m, d)
    ensures forall p :: p in t.payments && p.paymentDate == IsoDate(y, m, d) ==>
              (p in PaymentsInMonth(t, year, month) <==> y == year && m == month)
    ensures forall s :: s in t.sales && s.saleDate == IsoDate(y, m, d) ==>
              (s in SalesInMonth(t, year, month) <==> y == year && m == month)
  {
    MonthWindowExact(year, month, y, m, d);
  }

  /** A month without any dated row summarises to zero, the outstanding
      balance aside. */
  lemma {:induction false} EmptyMonth(t: Tables, year: int, month: int)
    requires forall p :: p in t.payments ==> !Between(p.paymentDate, MonthStart(year, month), MonthEnd(year, month))
    requires forall s :: s in t.sales ==> !Between(s.saleDate, MonthStart(year, month), MonthEnd(year, month))
    ensures var r := Summarize(t, year, month);
      && r.paymentsCount == 0 && r.paymentsReceived == 0
      && r.newSalesCount == 0 && r.newSalesTotal == 0
  {
    FilterNone(t.payments, (p: Payment) => Between(p.paymentDate, MonthStart(year, month), MonthEnd(year, month)));
    FilterNone(t.sales, (s: Sale) => Between(s.saleDate, MonthStart(year, month), MonthEnd(year, month)));
  }

  // ---------------------------------------------------------------------
  // outstanding_sales

  datatype OutstandingReport = OutstandingReport(sales: seq<SaleView>, total: int)

  /** The sales with something left to pay, joined with their customers and
      oldest first; the total is summed over the sales table itself, without
      the join. */
  function OutstandingSales(t: Tables): (r: OutstandingReport)
    ensures SortedBy(r.sales, ViewDateOf, false)
    ensures multiset(r.sales) == multiset(Joined(Filter(t.sales, Owes), t.customers))
    ensures forall v :: v in r.sales ==> v.sale in t.sales && Owes(v.sale) && ViewOf(t.customers, v.sale) == Some(v)
    ensures forall s :: s in t.sales && Owes(s) && ViewOf(t.customers, s).Some? ==> ViewOf(t.customers, s).value in r.sales
    ensures r.total == SumOf(Filter(t.sales, Owes), RemainingOf)
    ensures r.total >= 0
  {
    var owing := Filter(t.sales, Owes);
    var joined := Joined(owing, t.customers);
    var sales := SortBy(joined, ViewDateOf, false);
    SortByMembers(joined, ViewDateOf, false);
    assert forall s :: s in owing ==> RemainingOf(s) > 0;
    SumOfNonNegative(owing, RemainingOf);
    OutstandingReport(sales, SumOf(owing, RemainingOf))
  }

  /** With no sale owing anything the list is empty and the total is 0. */
  lemma NothingOutstanding(t: Tables)
    requires forall i :: 0 <= i < |t.sales| ==> t.sales[i].remaining <= 0
    ensures OutstandingSales(t).sales == [] && OutstandingSales(t).total == 0
  {
    FilterNone(t.sales, Owes);
  }

  /** When every sale's customer exists, the total is the sum over the listed sales. */
  lemma OutstandingTotalIsListed(t: Tables)
    requires SalesResolve(t)
    ensures var r := OutstandingSales(t);
            r.total == SumOf(r.sales, ViewRemainingOf)
  {
    var owing := Filter(t.sales, Owes);
    forall s | s in owing
      ensures FindCustomer(t.customers, s.customerId).Some?
    {
      var i :| 0 <= i < |t.sales| && t.sales[i] == s;
    }
    JoinedKeepsAll(owing, t.customers);
    var joined := Joined(owing, t.customers);
    SumOfPermutation(OutstandingSales(t).sales, joined, ViewRemainingOf);
  }

  /** The monthly outstanding balance and the outstanding total differ only by
      the sales with a negative `remaining`: with none of those they agree. */
  lemma OutstandingAgrees(t: Tables, year: int, month: int)
    requires forall i :: 0 <= i < |t.sales| ==> t.sales[i].remaining >= 0
    ensures Summarize(t, year, month).outstandingBalance == OutstandingSales(t).total
  {
    forall s | s in t.sales && !Owes(s)
      ensures RemainingOf(s) == 0
    {
      var i :| 0 <= i < |t.sales| && t.sales[i] == s;
    }
    SumOfFilterDropsZeros(t.sales, Owes, RemainingOf);
  }

  /** Kept books whose sales are paid within their price have no negative
      `remaining`, so the two balances agree. */
  lemma OutstandingAgreesOnBoundedBooks(t: Tables, year: int, month: int)
    requires Books(t) && AllBounded(t)
    ensures Summarize(t, year, month).outstandingBalance == OutstandingSales(t).total
  {
    assert forall i :: 0 <= i < |t.sales| ==> Balanced(t.sales[i]) && Bounded(t.sales[i]);
    OutstandingAgrees(t, year, month);
  }

  /** A sale paid beyond its price has a negative `remaining`: the monthly
      outstanding balance subtracts it, the outstanding total leaves it out. */
  lemma OutstandingCountsCredit(year: int, month: int)
    ensures var c := Customer(1, "Alice", "0700", "Town", "2024-05-01 09:00:00");
      var over := Sale(1, 1, "Chair", "misc", "other", 1000, "2024-05-02", 1300, -300);
      var owing := Sale(2, 1, "Table", "misc", "other", 2000, "2024-05-03", 1500, 500);
      var t := Tables([c], [over, owing], [], 1, 2, 0);
      && Summarize(t, year, month).outstandingBalance == 200
      && OutstandingSales(t).total == 500
  {
    var c := Customer(1, "Alice", "0700", "Town", "2024-05-01 09:00:00");
    var over := Sale(1, 1, "Chair", "misc", "other", 1000, "2024-05-02", 1300, -300);
    var owing := Sale(2, 1, "Table", "misc", "other", 2000, "2024-05-03", 1500, 500);
    var t := Tables([c], [over, owing], [], 1, 2, 0);
    assert [over, owing][1..] == [owing];
    assert [owing][1..] == [];
    assert SumOf([owing], RemainingOf) == 500;
    assert SumOf([over, owing], RemainingOf) == 200;
    assert Filter([over, owing], Owes) == [owing] by {
      assert Filter([owing], Owes) == [owing] + Filter([owing][1..], Owes);
      assert [owing][1..] == [];
    }
    assert [owing][1..] == [];
  }
}
