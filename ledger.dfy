/** The ledger store: the three tables, their `AUTOINCREMENT` counters and,
    until the startup migration has run, the tables of the legacy layout. The
    writing requests change the store in place, each one as a single atomic
    step that does what the matching function of `Operations` describes. */
module CostManager {
  import opened Schema
  import opened Catalog
  import opened Operations
  import opened Migration

  class Ledger {
    var customers: seq<Customer>
    var sales: seq<Sale>
    var payments: seq<Payment>
    var lastCustomerId: nat
    var lastSaleId: nat
    var lastPaymentId: nat
    /** The rows of the legacy `sales` and `payments` tables while they exist. */
    var legacy: Option<LegacyTables>
    /** The category catalog read at startup. */
    const categories: Categories

    /** The current-layout tables. */
    function State(): Tables
      reads this
    {
      Tables(customers, sales, payments, lastCustomerId, lastSaleId, lastPaymentId)
    }

    /** The tables are well formed, and while the legacy layout is present the
        current `sales` and `payments` are the empty tables the startup creates
        beside it. The `customers` table is created only when it is missing, so
        it may already hold rows. */
    ghost predicate Valid()
      reads this
    {
      && WellFormed(State())
      && (legacy.Some? ==> sales == [] && payments == [] && lastSaleId == 0 && lastPaymentId == 0)
    }

    /** Open a store with the given contents and catalog. */
    constructor Open(t: Tables, layout: Option<LegacyTables>, catalog: Categories)
      requires WellFormed(t)
      requires layout.Some? ==> t.sales == [] && t.payments == [] && t.lastSaleId == 0 && t.lastPaymentId == 0
      ensures Valid()
      ensures State() == t && legacy == layout && categories == catalog
    {
      customers, sales, payments := t.customers, t.sales, t.payments;
      lastCustomerId, lastSaleId, lastPaymentId := t.lastCustomerId, t.lastSaleId, t.lastPaymentId;
      legacy := layout;
      categories := catalog;
    }

    /** `init_db`: when the legacy layout is present, insert the legacy
        customer, re-insert every legacy sale and then every legacy payment one
        row at a time, and drop the legacy tables. Otherwise nothing changes,
        so running it a second time is a no-op. When the legacy customer's
        phone is already in use its insert fails: the startup reports failure
        (`ok` is false), nothing is written and the legacy tables stay. */
    method InitDb(now: string) returns (ok: bool)
      requires Valid()
      modifies this
      ensures ok <==> Migrate(old(State()), old(legacy), now).Ok?
      ensures ok ==> State() == Migrate(old(State()), old(legacy), now).value && legacy.None?
      ensures !ok ==> State() == old(State()) && legacy == old(legacy)
      ensures Valid()
    {
      if legacy.None? {
        return true;
      }
      if PhoneTaken(customers, LegacyPhone) {
        return false;
      }
      var l := legacy.value;
      lastCustomerId := lastCustomerId + 1;
      customers := customers + [LegacyCustomer(lastCustomerId, now)];
      CopySales(l.sales);
      CopyPayments(l.payments);
      legacy := None;
      ok := true;
    }

    /** The loop over `SELECT * FROM sales_old`: one insert per legacy sale. */
    method CopySales(ls: seq<LegacySale>)
      modifies this
      ensures sales == old(sales) + MigratedSales(ls, old(lastSaleId))
      ensures lastSaleId == old(lastSaleId) + |ls|
      ensures customers == old(customers) && lastCustomerId == old(lastCustomerId)
      ensures payments == old(payments) && lastPaymentId == old(lastPaymentId)
      ensures legacy == old(legacy)
    {
      var i := 0;
      while i < |ls|
        invariant 0 <= i <= |ls|
        invariant sales == old(sales) + MigratedSales(ls[..i], old(lastSaleId))
        invariant lastSaleId == old(lastSaleId) + i
        invariant customers == old(customers) && lastCustomerId == old(lastCustomerId)
        invariant payments == old(payments) && lastPaymentId == old(lastPaymentId)
        invariant legacy == old(legacy)
      {
        assert ls[..i + 1][..i] == ls[..i];
        lastSaleId := lastSaleId + 1;
        sales := sales + [MigratedSale(ls[i], lastSaleId)];
        i := i + 1;
      }
      assert ls[..i] == ls;
    }

    /** The loop over `SELECT * FROM payments_old`: one insert per legacy payment. */
    method CopyPayments(lp: seq<LegacyPayment>)
      modifies this
      ensures payments == old(payments) + MigratedPayments(lp, old(lastPaymentId))
      ensures lastPaymentId == old(lastPaymentId) + |lp|
      ensures customers == old(customers) && lastCustomerId == old(lastCustomerId)
      ensures sales == old(sales) && lastSaleId == old(lastSaleId)
      ensures legacy == old(legacy)
    {
      var j := 0;
      while j < |lp|
        invariant 0 <= j <= |lp|
        invariant payments == old(payments) + MigratedPayments(lp[..j], old(lastPaymentId))
        invariant lastPaymentId == old(lastPaymentId) + j
        invariant customers == old(customers) && lastCustomerId == old(lastCustomerId)
        invariant sales == old(sales) && lastSaleId == old(lastSaleId)
        invariant legacy == old(legacy)
      {
        assert lp[..j + 1][..j] == lp[..j];
        lastPaymentId := lastPaymentId + 1;
        payments := payments + [MigratedPayment(lp[j], lastPaymentId)];
        j := j + 1;
      }
      assert lp[..j] == lp;
    }

    /** `create_customer`: insert the customer unless the phone is in use. */
    method CreateCustomer(req: CustomerRequest, now: string) returns (r: Result<int>)
      requires Valid() && legacy.None?
      modifies this
      ensures Step(r, State()) == Operations.CreateCustomer(old(State()), req, now)
      ensures Valid() && legacy.None?
    {
      if PhoneTaken(customers, req.phone) {
        return Err(DuplicatePhone);
      }
      lastCustomerId := lastCustomerId + 1;
      customers := customers + [Customer(lastCustomerId, req.name, req.phone, req.location, now)];
      r := Ok(lastCustomerId);
    }

    /** `create_sale`: check the category, the sub-category and the customer,
        then insert the sale and, when something was paid, its initial payment. */
    method CreateSale(req: SaleRequest) returns (r: Result<SaleReceipt>)
      requires Valid() && legacy.None?
      modifies this
      ensures Step(r, State()) == Operations.CreateSale(old(State()), categories, req)
      ensures Valid() && legacy.None?
    {
      var verdict := Check(categories, req.category, req.subCategory);
      if verdict == UnknownCategory {
        return Err(InvalidCategory(categories.Keys));
      }
      if verdict == UnknownSubCategory {
        return Err(InvalidSubCategory(req.category, categories[req.category]));
      }
      if FindCustomer(customers, req.customerId).None? {
        return Err(NotFound(CustomerEntity));
      }
      r := InsertSale(req);
    }

    /** The writes of a `create_sale` request that passed its checks: the
        sale row, then the initial payment row when something was paid. */
    method InsertSale(req: SaleRequest) returns (r: Result<SaleReceipt>)
      requires Valid() && legacy.None?
      requires Check(categories, req.category, req.subCategory) == Accepted
      requires FindCustomer(customers, req.customerId).Some?
      modifies this
      ensures Step(r, State()) == Operations.CreateSale(old(State()), categories, req)
      ensures Valid() && legacy.None?
    {
      CreateSaleAccepted(State(), categories, req);
      var remaining := req.totalPrice - req.paid;
      lastSaleId := lastSaleId + 1;
      var saleId := lastSaleId;
      sales := sales + [Sale(saleId, req.customerId, req.item, req.category, req.subCategory,
                             req.totalPrice, req.saleDate, req.paid, remaining)];
      if req.paid > 0 {
        lastPaymentId := lastPaymentId + 1;
        payments := payments + [Payment(lastPaymentId, saleId, req.paid, req.saleDate, InitialPaymentNote)];
      }
      r := Ok(SaleReceipt(saleId, remaining));
    }

    /** `add_payment`: look the sale up, refuse an amount above its remaining
        balance, update its `paid` and `remaining` and record the payment. */
    method AddPayment(req: PaymentRequest) returns (r: Result<int>)
      requires Valid() && legacy.None?
      modifies this
      ensures Step(r, State()) == Operations.AddPayment(old(State()), req)
      ensures Valid() && legacy.None?
    {
      var found := FindSale(sales, req.saleId);
      if found.None? {
        return Err(NotFound(SaleEntity));
      }
      var i := found.value;
      var sale := sales[i];
      if req.amount > sale.remaining {
        return Err(OverPayment(sale.remaining));
      }
      var newPaid := sale.paid + req.amount;
      var newRemaining := sale.remaining - req.amount;
      sales := sales[i := sale.(paid := newPaid, remaining := newRemaining)];
      lastPaymentId := lastPaymentId + 1;
      payments := payments + [Payment(lastPaymentId, req.saleId, req.amount, req.paymentDate, req.note)];
      r := Ok(newRemaining);
    }
  }
}
