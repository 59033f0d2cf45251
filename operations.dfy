/** The writing operations of the ledger, each as a function from the tables
    before the request to the result and the tables after it: every check runs
    first, and on a failure nothing is written. */
module Operations {
  import opened Seqs
  import opened Schema
  import opened Catalog

  datatype CustomerRequest = CustomerRequest(name: string, phone: string, location: string)

  /** A sale request; the request model's default for `paid` is 0. */
  datatype SaleRequest = SaleRequest(
    customerId: int,
    item: string,
    category: string,
    subCategory: string,
    totalPrice: int,
    saleDate: string,
    paid: int)

  /** A payment request; the request model's default for `note` is "". */
  datatype PaymentRequest = PaymentRequest(saleId: int, amount: int, paymentDate: string, note: string)

  datatype SaleReceipt = SaleReceipt(saleId: int, remaining: int)

  /** What a request returns, and the tables it leaves. */
  datatype Step<T> = Step(result: Result<T>, tables: Tables)

  const InitialPaymentNote := "Initial payment"

  // ---------------------------------------------------------------------
  // create_customer

  /** Insert a customer; the phone's `UNIQUE` constraint rejects a phone in use. */
  function CreateCustomer(t: Tables, req: CustomerRequest, now: string): (r: Step<int>)
    ensures r.result.Err? <==> PhoneTaken(t.customers, req.phone)
    ensures r.result.Err? ==> r.result.error == DuplicatePhone && r.tables == t
    ensures r.result.Ok? ==>
      && r.result.value == t.lastCustomerId + 1
      && r.tables == t.(customers := t.customers + [Customer(r.result.value, req.name, req.phone, req.location, now)],
                        lastCustomerId := r.result.value)
    ensures WellFormed(t) ==> WellFormed(r.tables)
    ensures WellFormed(t) && r.result.Ok? ==> FindCustomer(t.customers, r.result.value).None?
  {
    if PhoneTaken(t.customers, req.phone) then Step(Err(DuplicatePhone), t)
    else
      var id := t.lastCustomerId + 1;
      var c := Customer(id, req.name, req.phone, req.location, now);
      KeyedAppend(t.customers, c, CustomerKey, t.lastCustomerId);
      Step(Ok(id), t.(customers := t.customers + [c], lastCustomerId := id))
  }

  // ---------------------------------------------------------------------
  // create_sale

  /** The sale row a successful request inserts. */
  function NewSale(id: int, req: SaleRequest): Sale {
    Sale(id, req.customerId, req.item, req.category, req.subCategory,
         req.totalPrice, req.saleDate, req.paid, req.totalPrice - req.paid)
  }

  /** Validate the category, the sub-category and the customer, in that order;
      then insert the sale and, when something was paid up front, its initial
      payment row, dated on the sale date. */
  function CreateSale(t: Tables, categories: Categories, req: SaleRequest): (r: Step<SaleReceipt>)
    ensures r.result == Err(InvalidCategory(categories.Keys)) <==> req.category !in categories
    ensures r.result.Err? && r.result.error.InvalidSubCategory? <==>
              req.category in categories && req.subCategory !in categories[req.category]
    ensures r.result.Err? && r.result.error.InvalidSubCategory? ==>
              req.category in categories && r.result.error == InvalidSubCategory(req.category, categories[req.category])
    ensures r.result == Err(NotFound(CustomerEntity)) <==>
              Check(categories, req.category, req.subCategory) == Accepted
              && FindCustomer(t.customers, req.customerId).None?
    ensures r.result.Err? ==> r.tables == t
    ensures r.result.Ok? ==> |r.tables.sales| == |t.sales| + 1
    ensures r.result.Ok? ==>
      var s := r.tables.sales[|t.sales|];
      && r.result.value.saleId == s.id == t.lastSaleId + 1
      && r.result.value.remaining == s.remaining == req.totalPrice - req.paid
      && Balanced(s)
      && s.customerId == req.customerId && s.category == req.category && s.subCategory == req.subCategory
      && s.item == req.item && s.totalPrice == req.totalPrice && s.saleDate == req.saleDate && s.paid == req.paid
      && r.tables.sales == t.sales + [s]
      && r.tables.customers == t.customers
      && r.tables.lastSaleId == s.id
      && r.tables.payments == t.payments
           + (if req.paid > 0 then [Payment(t.lastPaymentId + 1, s.id, req.paid, req.saleDate, InitialPaymentNote)] else [])
      && r.tables.lastPaymentId == t.lastPaymentId + (if req.paid > 0 then 1 else 0)
    ensures WellFormed(t) ==> WellFormed(r.tables)
    ensures WellFormed(t) && r.result.Ok? ==> FindSale(t.sales, r.result.value.saleId).None?
  {
    match Check(categories, req.category, req.subCategory)
    case UnknownCategory => Step(Err(InvalidCategory(categories.Keys)), t)
    case UnknownSubCategory => Step(Err(InvalidSubCategory(req.category, categories[req.category])), t)
    case Accepted =>
      if FindCustomer(t.customers, req.customerId).None? then Step(Err(NotFound(CustomerEntity)), t)
      else
        var id := t.lastSaleId + 1;
        var sale := NewSale(id, req);
        KeyedAppend(t.sales, sale, SaleKey, t.lastSaleId);
        var t1 := t.(sales := t.sales + [sale], lastSaleId := id);
        if req.paid > 0 then
          var p := Payment(t.lastPaymentId + 1, id, req.paid, req.saleDate, InitialPaymentNote);
          KeyedAppend(t.payments, p, PaymentKey, t.lastPaymentId);
          Step(Ok(SaleReceipt(id, sale.remaining)),
               t1.(payments := t.payments + [p], lastPaymentId := p.id))
        else
          assert t.payments + [] == t.payments;
          Step(Ok(SaleReceipt(id, sale.remaining)), t1)
  }

  /** The tables a request that passes every check leaves. */
  lemma CreateSaleAccepted(t: Tables, categories: Categories, req: SaleRequest)
    requires Check(categories, req.category, req.subCategory) == Accepted
    requires FindCustomer(t.customers, req.customerId).Some?
    ensures var id := t.lastSaleId + 1;
      CreateSale(t, categories, req)
      == Step(Ok(SaleReceipt(id, req.totalPrice - req.paid)),
              t.(sales := t.sales + [NewSale(id, req)],
                 lastSaleId := id,
                 payments := t.payments + (if req.paid > 0 then [Payment(t.lastPaymentId + 1, id, req.paid, req.saleDate, InitialPaymentNote)] else []),
                 lastPaymentId := t.lastPaymentId + (if req.paid > 0 then 1 else 0)))
  {
    if req.paid <= 0 {
      assert t.payments + [] == t.payments;
    }
  }

  /** The new sale's payment rows gain exactly its initial payment, when the
      request paid something up front, and nothing otherwise. */
  lemma CreateSaleInitialPayment(t: Tables, categories: Categories, req: SaleRequest)
    requires CreateSale(t, categories, req).result.Ok?
    ensures var r := CreateSale(t, categories, req);
            var id := r.result.value.saleId;
            PaidFor(r.tables.payments, id) == PaidFor(t.payments, id) + (if req.paid > 0 then req.paid else 0)
  {
    var r := CreateSale(t, categories, req);
    var id := r.result.value.saleId;
    if req.paid > 0 {
      PaidForAppend(t.payments, r.tables.payments[|t.payments|], id);
    } else {
      assert r.tables.payments == t.payments;
    }
  }

  /** When every payment row names an existing sale, an id beyond the last
      sale id handed out has no payment rows. */
  lemma FreshSaleUnpaid(t: Tables, id: int)
    requires WellFormed(t) && PaymentsResolve(t)
    requires id > t.lastSaleId
    ensures PaidFor(t.payments, id) == 0
  {
    forall p | p in t.payments
      ensures !ForSale(id)(p)
    {
      var j :| 0 <= j < |t.payments| && t.payments[j] == p;
      var k := FindSale(t.sales, p.saleId).value;
      assert SaleKey(t.sales[k]) <= t.lastSaleId;
    }
    FilterNone(t.payments, ForSale(id));
  }

  /** A sale created with `paid >= 0` on consistent books keeps them consistent:
      it is balanced, and its payment rows add up to its `paid`, since no
      earlier payment row can name its fresh id. */
  lemma CreateSaleKeepsBooks(t: Tables, categories: Categories, req: SaleRequest)
    requires WellFormed(t) && Books(t) && PaymentsResolve(t)
    requires req.paid >= 0
    ensures Books(CreateSale(t, categories, req).tables)
  {
    var r := CreateSale(t, categories, req);
    if r.result.Ok? {
      var t' := r.tables;
      var id := r.result.value.saleId;
      CreateSaleInitialPayment(t, categories, req);
      FreshSaleUnpaid(t, id);
      forall i | 0 <= i < |t'.sales|
        ensures Balanced(t'.sales[i]) && PaidFor(t'.payments, t'.sales[i].id) == t'.sales[i].paid
      {
        if i < |t.sales| {
          assert t'.sales[i] == t.sales[i];
          if req.paid > 0 {
            PaidForAppend(t.payments, t'.payments[|t.payments|], t.sales[i].id);
            assert SaleKey(t.sales[i]) <= t.lastSaleId;
          }
        }
      }
    }
  }

  /** After a sale is created every payment row still names an existing sale,
      the new initial payment included. */
  lemma CreateSaleKeepsPaymentsResolve(t: Tables, categories: Categories, req: SaleRequest)
    requires PaymentsResolve(t)
    ensures PaymentsResolve(CreateSale(t, categories, req).tables)
  {
    var r := CreateSale(t, categories, req);
    if r.result.Ok? {
      var t' := r.tables;
      forall j | 0 <= j < |t'.payments|
        ensures FindSale(t'.sales, t'.payments[j].saleId).Some?
      {
        if j < |t.payments| {
          var k := FindSale(t.sales, t.payments[j].saleId).value;
          assert t'.sales[k] == t.sales[k];
        } else {
          assert t'.sales[|t.sales|].id == t'.payments[j].saleId;
        }
      }
    }
  }

  /** A sale created with `0 <= paid <= total_price` is bounded; the handler
      itself checks neither inequality. */
  lemma CreateSaleKeepsBounds(t: Tables, categories: Categories, req: SaleRequest)
    requires AllBounded(t)
    requires 0 <= req.paid <= req.totalPrice
    ensures AllBounded(CreateSale(t, categories, req).tables)
  {
    var r := CreateSale(t, categories, req);
    if r.result.Ok? {
      assert forall i :: 0 <= i < |t.sales| ==> r.tables.sales[i] == t.sales[i];
    }
  }

  // ---------------------------------------------------------------------
  // add_payment

  /** Apply a payment to an existing sale unless it exceeds the sale's
      remaining balance, and record it as a payment row. */
  function AddPayment(t: Tables, req: PaymentRequest): (r: Step<int>)
    ensures r.result == Err(NotFound(SaleEntity)) <==> FindSale(t.sales, req.saleId).None?
    ensures r.result.Ok? <==>
              FindSale(t.sales, req.saleId).Some? && req.amount <= t.sales[FindSale(t.sales, req.saleId).value].remaining
    ensures r.result.Err? && r.result.error.OverPayment? <==>
              FindSale(t.sales, req.saleId).Some? && req.amount > t.sales[FindSale(t.sales, req.saleId).value].remaining
    ensures r.result.Err? && r.result.error.OverPayment? ==>
              FindSale(t.sales, req.saleId).Some? &&
              r.result.error.remaining == t.sales[FindSale(t.sales, req.saleId).value].remaining
    ensures r.result.Err? ==> r.tables == t
    ensures r.result.Ok? ==> FindSale(t.sales, req.saleId).Some? && |r.tables.sales| == |t.sales|
    ensures r.result.Ok? ==>
      var i := FindSale(t.sales, req.saleId).value;
      var s, s' := t.sales[i], r.tables.sales[i];
      && s'.paid == s.paid + req.amount
      && s'.remaining == s.remaining - req.amount == r.result.value
      && r.result.value >= 0
      && s'.paid + s'.remaining == s.paid + s.remaining
      && s' == s.(paid := s'.paid, remaining := s'.remaining)
      && (forall k :: 0 <= k < |t.sales| && k != i ==> r.tables.sales[k] == t.sales[k])
      && r.tables.payments == t.payments + [Payment(t.lastPaymentId + 1, req.saleId, req.amount, req.paymentDate, req.note)]
      && r.tables.lastPaymentId == t.lastPaymentId + 1
      && r.tables.customers == t.customers
      && r.tables.lastCustomerId == t.lastCustomerId
      && r.tables.lastSaleId == t.lastSaleId
    ensures WellFormed(t) ==> WellFormed(r.tables)
  {
    match FindSale(t.sales, req.saleId)
    case None => Step(Err(NotFound(SaleEntity)), t)
    case Some(i) =>
      var sale := t.sales[i];
      if req.amount > sale.remaining then Step(Err(OverPayment(sale.remaining)), t)
      else
        var sale' := sale.(paid := sale.paid + req.amount, remaining := sale.remaining - req.amount);
        var p := Payment(t.lastPaymentId + 1, req.saleId, req.amount, req.paymentDate, req.note);
        KeyedUpdate(t.sales, i, sale', SaleKey, t.lastSaleId);
        KeyedAppend(t.payments, p, PaymentKey, t.lastPaymentId);
        Step(Ok(sale'.remaining),
             t.(sales := t.sales[i := sale'], payments := t.payments + [p], lastPaymentId := p.id))
  }

  /** Applying a payment keeps every sale balanced and its payment rows adding
      up to its `paid`, whatever the amount: the sale gains the amount in `paid`,
      and loses it in `remaining`, exactly as its payment rows gain it. */
  lemma AddPaymentKeepsBooks(t: Tables, req: PaymentRequest)
    requires WellFormed(t) && Books(t)
    ensures Books(AddPayment(t, req).tables)
  {
    var r := AddPayment(t, req);
    if r.result.Ok? {
      var i := FindSale(t.sales, req.saleId).value;
      FindSaleUnique(t.sales, req.saleId, t.lastSaleId);
      var t' := r.tables;
      forall k | 0 <= k < |t'.sales|
        ensures Balanced(t'.sales[k]) && PaidFor(t'.payments, t'.sales[k].id) == t'.sales[k].paid
      {
        PaidForAppend(t.payments, t'.payments[|t.payments|], t.sales[k].id);
      }
    }
  }

  /** Applying a payment leaves every payment row naming an existing sale. */
  lemma AddPaymentKeepsPaymentsResolve(t: Tables, req: PaymentRequest)
    requires PaymentsResolve(t)
    ensures PaymentsResolve(AddPayment(t, req).tables)
  {
    var r := AddPayment(t, req);
    if r.result.Ok? {
      var i := FindSale(t.sales, req.saleId).value;
      forall j | 0 <= j < |r.tables.payments|
        ensures FindSale(r.tables.sales, r.tables.payments[j].saleId).Some?
      {
        var id := r.tables.payments[j].saleId;
        if j < |t.payments| {
          var k := FindSale(t.sales, id).value;
          assert r.tables.sales[k].id == id;
        } else {
          assert r.tables.sales[i].id == id;
        }
      }
    }
  }

  /** On balanced books a payment of a non-negative amount keeps every sale
      within `0 <= paid <= total_price`; the handler does not itself reject a
      negative amount, which would lower `paid`. */
  lemma AddPaymentKeepsBounds(t: Tables, req: PaymentRequest)
    requires WellFormed(t) && Books(t) && AllBounded(t)
    requires req.amount >= 0
    ensures AllBounded(AddPayment(t, req).tables)
    ensures forall k :: 0 <= k < |t.sales| ==> AddPayment(t, req).tables.sales[k].paid >= t.sales[k].paid
  {
    var r := AddPayment(t, req);
    if r.result.Ok? {
      var i := FindSale(t.sales, req.saleId).value;
      assert Balanced(t.sales[i]);
    }
  }

  // ---------------------------------------------------------------------
  // An end-to-end walk through the ledger, one request at a time

  const ScenarioCatalog: Categories := map["electronics" := ["phone", "tv"]]

  function ScenarioCustomer(now: string): Customer {
    Customer(1, "Alice", "555-1111", "Springfield", now)
  }

  /** The tables after the sale of a TV for 200 with 50 paid up front, and
      after a further `paid` of `extra`. */
  function ScenarioTables(now: string, extra: int, payments: seq<Payment>): Tables {
    Tables([ScenarioCustomer(now)],
           [Sale(1, 1, "TV", "electronics", "tv", 200, "2024-03-05", 50 + extra, 150 - extra)],
           payments, 1, 1, |payments|)
  }

  const InitialRow := Payment(1, 1, 50, "2024-03-05", InitialPaymentNote)
  const SettlingRow := Payment(2, 1, 150, "2024-03-20", "")

  lemma ScenarioCreateCustomer(now: string)
    ensures CreateCustomer(NoTables, CustomerRequest("Alice", "555-1111", "Springfield"), now)
            == Step(Ok(1), NoTables.(customers := [ScenarioCustomer(now)], lastCustomerId := 1))
  {
    assert !PhoneTaken(NoTables.customers, "555-1111");
  }

  lemma ScenarioCreateSale(now: string)
    ensures var t := NoTables.(customers := [ScenarioCustomer(now)], lastCustomerId := 1);
      && CreateSale(t, ScenarioCatalog, SaleRequest(1, "TV", "electronics", "tv", 200, "2024-03-05", 50))
         == Step(Ok(SaleReceipt(1, 150)), ScenarioTables(now, 0, [InitialRow]))
      && CreateSale(t, ScenarioCatalog, SaleRequest(1, "TV", "electronics", "bogus", 200, "2024-03-05", 0)).result
         == Err(InvalidSubCategory("electronics", ["phone", "tv"]))
  {
    var t := NoTables.(customers := [ScenarioCustomer(now)], lastCustomerId := 1);
    assert "tv" in ScenarioCatalog["electronics"] && "bogus" !in ScenarioCatalog["electronics"];
    assert FindCustomer(t.customers, 1).Some?;
  }

  lemma ScenarioSettle(now: string)
    ensures AddPayment(ScenarioTables(now, 0, [InitialRow]), PaymentRequest(1, 150, "2024-03-20", ""))
            == Step(Ok(0), ScenarioTables(now, 150, [InitialRow, SettlingRow]))
  {
    assert FindSale(ScenarioTables(now, 0, [InitialRow]).sales, 1) == Some(0);
  }

  lemma ScenarioRefuse(now: string)
    ensures AddPayment(ScenarioTables(now, 150, [InitialRow, SettlingRow]), PaymentRequest(1, 1, "2024-03-21", "")).result
            == Err(OverPayment(0))
  {
    assert FindSale(ScenarioTables(now, 150, [InitialRow, SettlingRow]).sales, 1) == Some(0);
  }

  /** A customer, a sale with a partial payment up front, a payment settling
      it, a further payment refused, and a sale with an unknown sub-category
      refused. */
  lemma SettlementScenario(now: string)
    ensures
      var s1 := CreateCustomer(NoTables, CustomerRequest("Alice", "555-1111", "Springfield"), now);
      var s2 := CreateSale(s1.tables, ScenarioCatalog, SaleRequest(1, "TV", "electronics", "tv", 200, "2024-03-05", 50));
      var s3 := AddPayment(s2.tables, PaymentRequest(1, 150, "2024-03-20", ""));
      var s4 := AddPayment(s3.tables, PaymentRequest(1, 1, "2024-03-21", ""));
      && s1.result == Ok(1)
      && s2.result == Ok(SaleReceipt(1, 150))
      && s3.result == Ok(0)
      && s4.result == Err(OverPayment(0))
      && CreateSale(s1.tables, ScenarioCatalog, SaleRequest(1, "TV", "electronics", "bogus", 200, "2024-03-05", 0)).result
         == Err(InvalidSubCategory("electronics", ["phone", "tv"]))
  {
    ScenarioCreateCustomer(now);
    ScenarioCreateSale(now);
    ScenarioSettle(now);
    ScenarioRefuse(now);
  }
}
