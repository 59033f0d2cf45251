/** The ledger's three tables in their current layout (customers, sales,
    payments, joined by integer ids), the errors the operations report, and
    the consistency facts the operations maintain.

    Money is a whole number of cents, so the balance equalities are exact. */
module Schema {
  import opened Seqs

  datatype Option<T> = None | Some(value: T)

  /** A `customers` row; `createdAt` is the `CURRENT_TIMESTAMP` default at insertion. */
  datatype Customer = Customer(id: int, name: string, phone: string, location: string, createdAt: string)

  /** A `sales` row; `saleDate` is an ISO date string. */
  datatype Sale = Sale(
    id: int,
    customerId: int,
    item: string,
    category: string,
    subCategory: string,
    totalPrice: int,
    saleDate: string,
    paid: int,
    remaining: int)

  /** A `payments` row. */
  datatype Payment = Payment(id: int, saleId: int, amount: int, paymentDate: string, note: string)

  /** The three tables and, per table, the largest id `AUTOINCREMENT` has
      handed out so far (SQLite's `sqlite_sequence`). */
  datatype Tables = Tables(
    customers: seq<Customer>,
    sales: seq<Sale>,
    payments: seq<Payment>,
    lastCustomerId: nat,
    lastSaleId: nat,
    lastPaymentId: nat)

  /** The tables as `CREATE TABLE` leaves them. */
  const NoTables := Tables([], [], [], 0, 0, 0)

  /** The row a request refers to by id and that does not exist. */
  datatype Entity = CustomerEntity | SaleEntity

  /** The failures of the operations; each leaves the tables as they were. */
  datatype Error =
    | NotFound(entity: Entity)
    | DuplicatePhone
    | InvalidCategory(categories: set<string>)
    | InvalidSubCategory(category: string, subCategories: seq<string>)
    | OverPayment(remaining: int)

  datatype Result<T> = Ok(value: T) | Err(error: Error)

  // ---------------------------------------------------------------------
  // Column selectors, used as keys of filters, sums and sorts

  function CustomerKey(c: Customer): int { c.id }
  function SaleKey(s: Sale): int { s.id }
  function PaymentKey(p: Payment): int { p.id }
  function AmountOf(p: Payment): int { p.amount }

  /** `WHERE sale_id = id` on payments. */
  function ForSale(id: int): Payment -> bool {
    (p: Payment) => p.saleId == id
  }

  // ---------------------------------------------------------------------
  // Well-formed tables

  /** Ids are positive, no larger than the last one handed out, and ascend in
      table order (rows are appended with fresh ids, never deleted). */
  ghost predicate Keyed<T>(rows: seq<T>, id: T -> int, last: nat) {
    && (forall i :: 0 <= i < |rows| ==> 1 <= id(rows[i]) <= last)
    && (forall i, j :: 0 <= i < j < |rows| ==> id(rows[i]) < id(rows[j]))
  }

  /** The `UNIQUE` constraint on `customers.phone`. */
  ghost predicate PhonesUnique(cs: seq<Customer>) {
    forall i, j :: 0 <= i < j < |cs| ==> cs[i].phone != cs[j].phone
  }

  ghost predicate WellFormed(t: Tables) {
    && Keyed(t.customers, CustomerKey, t.lastCustomerId)
    && PhonesUnique(t.customers)
    && Keyed(t.sales, SaleKey, t.lastSaleId)
    && Keyed(t.payments, PaymentKey, t.lastPaymentId)
  }

  lemma KeyedAppend<T>(rows: seq<T>, x: T, id: T -> int, last: nat)
    ensures Keyed(rows, id, last) && id(x) == last + 1 ==> Keyed(rows + [x], id, last + 1)
  {
  }

  lemma KeyedUpdate<T>(rows: seq<T>, i: int, x: T, id: T -> int, last: nat)
    requires 0 <= i < |rows|
    ensures Keyed(rows, id, last) && id(x) == id(rows[i]) ==> Keyed(rows[i := x], id, last)
  {
  }

  // ---------------------------------------------------------------------
  // Lookups by id (`SELECT ... WHERE id = ?`, first row)

  predicate PhoneTaken(cs: seq<Customer>, phone: string) {
    exists i :: 0 <= i < |cs| && cs[i].phone == phone
  }

  function FindCustomer(cs: seq<Customer>, id: int): (r: Option<Customer>)
    ensures r.Some? ==> r.value in cs && r.value.id == id
    ensures r.None? <==> forall c :: c in cs ==> c.id != id
  {
    if cs == [] then None
    else if cs[0].id == id then Some(cs[0])
    else FindCustomer(cs[1..], id)
  }

  /** The position of the first sale with this id. */
  function FindSale(ss: seq<Sale>, id: int): (r: Option<nat>)
    ensures r.Some? ==> r.value < |ss| && ss[r.value].id == id
    ensures r.None? <==> forall i :: 0 <= i < |ss| ==> ss[i].id != id
  {
    if ss == [] then None
    else if ss[0].id == id then Some(0)
    else match FindSale(ss[1..], id)
      case None => None
      case Some(k) => Some(k + 1)
  }

  /** With ascending ids a found sale is the only one with its id. */
  lemma FindSaleUnique(ss: seq<Sale>, id: int, last: nat)
    requires Keyed(ss, SaleKey, last) && FindSale(ss, id).Some?
    ensures forall k :: 0 <= k < |ss| && k != FindSale(ss, id).value ==> ss[k].id != id
  {
    var i := FindSale(ss, id).value;
    forall k | 0 <= k < |ss| && k != i
      ensures ss[k].id != id
    {
      if k < i {
        assert SaleKey(ss[k]) < SaleKey(ss[i]);
      } else {
        assert SaleKey(ss[i]) < SaleKey(ss[k]);
      }
    }
  }

  // ---------------------------------------------------------------------
  // The consistency facts

  /** What a sale's payment rows add up to. */
  function PaidFor(ps: seq<Payment>, saleId: int): int {
    SumOf(Filter(ps, ForSale(saleId)), AmountOf)
  }

  /** Appending a payment row adds its amount to its own sale only. */
  lemma PaidForAppend(ps: seq<Payment>, p: Payment, saleId: int)
    ensures PaidFor(ps + [p], saleId)
            == PaidFor(ps, saleId) + (if p.saleId == saleId then p.amount else 0)
  {
    FilterConcat(ps, [p], ForSale(saleId));
    FilterSingleton(p, ForSale(saleId));
    SumOfConcat(Filter(ps, ForSale(saleId)), Filter([p], ForSale(saleId)), AmountOf);
    if p.saleId == saleId {
      assert SumOf([p], AmountOf) == p.amount by {
        assert [p][1..] == [];
      }
    }
  }

  /** `remaining == total_price - paid`. */
  ghost predicate Balanced(s: Sale) {
    s.remaining == s.totalPrice - s.paid
  }

  /** `0 <= paid <= total_price`. */
  ghost predicate Bounded(s: Sale) {
    0 <= s.paid <= s.totalPrice
  }

  /** Every sale is balanced and its payment rows add up to its `paid`. */
  ghost predicate Books(t: Tables) {
    forall i :: 0 <= i < |t.sales| ==>
      Balanced(t.sales[i]) && PaidFor(t.payments, t.sales[i].id) == t.sales[i].paid
  }

  /** Every sale has `0 <= paid <= total_price`. */
  ghost predicate AllBounded(t: Tables) {
    forall i :: 0 <= i < |t.sales| ==> Bounded(t.sales[i])
  }

  /** Every payment row names an existing sale. */
  ghost predicate PaymentsResolve(t: Tables) {
    forall j :: 0 <= j < |t.payments| ==> FindSale(t.sales, t.payments[j].saleId).Some?
  }

  /** Every sale names an existing customer. */
  ghost predicate SalesResolve(t: Tables) {
    forall i :: 0 <= i < |t.sales| ==> FindCustomer(t.customers, t.sales[i].customerId).Some?
  }
}
