/** The cashier's sale settlement (`procesarVentaCompleta`): one cart
    request becomes a customer, a sale header with its product lines, an
    invoice with its service lines, appointment status updates, final
    totals and one payment, all inside one database transaction.

    The transaction is the pure function `Settle`: every step maps the
    in-flight store to the next one or fails, and a failure discards the
    in-flight store, so on rollback the caller still holds the store it
    started from. */
module Settlement {
  import opened Wrappers
  import opened Tables
  import opened Text
  import opened Schema

  const ProductKind := "PRODUCTO"
  const ServiceKind := "SERVICIO"
  const Attended := "Atendida"
  const DefaultGivenName := "Cliente"
  const DefaultFamilyName := "General"
  /** `cedula` is a CHAR(10) column. */
  const CedulaWidth := 10

  /** One cart line as the cashier's page sends it. Product lines use
      `product` and `quantity`; service lines use `service` and may carry
      the appointment they settle. Prices, discounts and subtotals are
      computed by the page and only copied here. */
  datatype Item = Item(
    kind: string,
    product: int,
    quantity: int,
    service: int,
    price: int,
    discount: Option<int>,
    subtotal: int,
    appointment: Option<int>)

  datatype Request = Request(
    branch: int,
    cashier: int,
    customer: Option<int>,
    cedula: Option<string>,
    name: Option<string>,
    phone: Option<string>,
    email: Option<string>,
    items: seq<Item>,
    subtotal: int,
    tax: int,
    total: int,
    paymentMethod: string)

  /** `{ success: true, id_factura, num_factura, total }`. */
  datatype Receipt = Receipt(invoice: int, invoiceNumber: string, total: int)

  /** Why the transaction was rolled back. `MissingCustomerName` is the
      TypeError of calling `split` on an absent name; the others are
      constraint violations raised by the database. */
  datatype Fault =
    | MissingCustomerName
    | RejectedCedula
    | UnknownBranch(branch: int)
    | UnknownCashier(cashier: int)
    | UnknownProduct(product: int)
    | UnknownCustomer(customer: int)
    | UnknownService(service: int)

  /** `descuento_aplicado || 0`. */
  function Discount(it: Item): int {
    it.discount.GetOr(0)
  }

  // ---------------------------------------------------------------------
  // Cart lines

  /** `items.filter(i => i.type === kind)`. */
  function ItemsOfKind(items: seq<Item>, kind: string): seq<Item>
  {
    if items == [] then []
    else (if items[0].kind == kind then [items[0]] else []) + ItemsOfKind(items[1..], kind)
  }

  /** The filter keeps exactly the items of that type. */
  lemma {:induction false} ItemsOfKindMembers(items: seq<Item>, kind: string)
    ensures forall x :: x in ItemsOfKind(items, kind) <==> x in items && x.kind == kind
  {
    if items != [] {
      ItemsOfKindMembers(items[1..], kind);
      assert forall x :: x in items <==> x == items[0] || x in items[1..];
    }
  }

  /** Filtering keeps cart order: filtering a concatenation concatenates the filtered parts. */
  lemma {:induction false} ItemsOfKindAppend(a: seq<Item>, b: seq<Item>, kind: string)
    ensures ItemsOfKind(a + b, kind) == ItemsOfKind(a, kind) + ItemsOfKind(b, kind)
    decreases |a|
  {
    if a != [] {
      var x := ItemsOfKind(a[1..], kind);
      var y := ItemsOfKind(b, kind);
      var head := if a[0].kind == kind then [a[0]] else [];
      assert ItemsOfKind(a + b, kind) == head + ItemsOfKind(a[1..] + b, kind) by {
        assert a + b == [a[0]] + (a[1..] + b);
        ItemsOfKindCons(a[0], a[1..] + b, kind);
      }
      ItemsOfKindAppend(a[1..], b, kind);
      assert head + (x + y) == (head + x) + y;
    } else {
      assert a + b == b;
    }
  }

  lemma ItemsOfKindCons(it: Item, rest: seq<Item>, kind: string)
    ensures ItemsOfKind([it] + rest, kind)
            == (if it.kind == kind then [it] else []) + ItemsOfKind(rest, kind)
  {
    assert ([it] + rest)[1..] == rest;
  }

  /** The `Detalle_Venta` row written for a product line. */
  function SaleLineOf(sale: int, it: Item): SaleLine {
    SaleLine(sale, it.product, it.quantity, it.price, Discount(it), it.subtotal)
  }

  /** The `Servicio_Factura` row written for a service line: quantity is always 1. */
  function InvoiceLineOf(invoice: int, it: Item): InvoiceLine {
    InvoiceLine(invoice, it.service, 1, it.price, Discount(it), it.subtotal)
  }

  /** One sale line per product item, in the same order. */
  function SaleLinesFor(sale: int, products: seq<Item>): seq<SaleLine> {
    seq(|products|, i requires 0 <= i < |products| => SaleLineOf(sale, products[i]))
  }

  /** One invoice line per service item, in the same order. */
  function InvoiceLinesFor(invoice: int, services: seq<Item>): seq<InvoiceLine> {
    seq(|services|, i requires 0 <= i < |services| => InvoiceLineOf(invoice, services[i]))
  }

  /** The appointments the service items settle (`id_cita` truthy). */
  function CitedAppointments(services: seq<Item>): set<int> {
    set i | 0 <= i < |services| && Truthy(services[i].appointment) :: services[i].appointment.value
  }

  /** Every appointment in `ids` has status 'Atendida', whatever it was; all
      other appointments and all other fields are as in `m`. */
  function MarkAttended(m: map<int, Appointment>, ids: set<int>): map<int, Appointment> {
    map k | k in m :: if k in ids then m[k].(status := Attended) else m[k]
  }

  /** `UPDATE Cita SET estado = 'Atendida' WHERE id_cita = @id`: no row, no change. */
  function SetAttended(m: map<int, Appointment>, id: int): map<int, Appointment> {
    if id in m then m[id := m[id].(status := Attended)] else m
  }

  lemma SaleLinesCons(sale: int, products: seq<Item>)
    requires products != []
    ensures SaleLinesFor(sale, products)
            == [SaleLineOf(sale, products[0])] + SaleLinesFor(sale, products[1..])
  {
  }

  lemma InvoiceLinesCons(invoice: int, services: seq<Item>)
    requires services != []
    ensures InvoiceLinesFor(invoice, services)
            == [InvoiceLineOf(invoice, services[0])] + InvoiceLinesFor(invoice, services[1..])
  {
  }

  lemma CitedCons(services: seq<Item>)
    requires services != []
    ensures CitedAppointments(services)
            == (if Truthy(services[0].appointment) then {services[0].appointment.value} else {})
               + CitedAppointments(services[1..])
  {
    var head := if Truthy(services[0].appointment) then {services[0].appointment.value} else {};
    forall a | a in CitedAppointments(services)
      ensures a in head + CitedAppointments(services[1..])
    {
      var i :| 0 <= i < |services| && Truthy(services[i].appointment) && services[i].appointment.value == a;
      if i > 0 {
        assert services[1..][i - 1] == services[i];
      }
    }
    forall a | a in CitedAppointments(services[1..])
      ensures a in CitedAppointments(services)
    {
      var i :| 0 <= i < |services[1..]| && Truthy(services[1..][i].appointment)
               && services[1..][i].appointment.value == a;
      assert services[i + 1] == services[1..][i];
    }
  }

  /** Marking the same appointments attended again changes nothing, and
      appointments outside `ids` keep their status. */
  lemma MarkAttendedIdempotent(m: map<int, Appointment>, ids: set<int>, k: int)
    ensures MarkAttended(MarkAttended(m, ids), ids) == MarkAttended(m, ids)
    ensures k in m ==> k in MarkAttended(m, ids)
                       && MarkAttended(m, ids)[k].status == (if k in ids then Attended else m[k].status)
  {
  }

  lemma MarkAttendedAfterUpdate(m: map<int, Appointment>, id: int, ids: set<int>)
    ensures MarkAttended(SetAttended(m, id), ids) == MarkAttended(m, {id} + ids)
  {
  }

  // ---------------------------------------------------------------------
  // A. Customer

  /** First space-separated word of the name, or 'Cliente' when that word is empty. */
  function GivenName(fullName: string): (r: string)
    ensures var i := IndexOf(fullName, ' ');
            r == if i == 0 then DefaultGivenName else fullName[..i]
    ensures ' ' !in r
  {
    var first := Split(fullName, ' ')[0];
    if first == "" then DefaultGivenName else first
  }

  /** The remaining words joined by single spaces, which is the text after
      the first space, or 'General' when that is empty. */
  function FamilyName(fullName: string): (r: string)
    ensures var i := IndexOf(fullName, ' ');
            r == if i + 1 < |fullName| then fullName[i + 1..] else DefaultFamilyName
  {
    RestAfterFirst(fullName, ' ');
    var rest := Join(Split(fullName, ' ')[1..], ' ');
    if rest == "" then DefaultFamilyName else rest
  }

  /** A cedula the CHAR(10) NOT NULL column accepts. */
  predicate CedulaAccepted(cedula: Option<string>) {
    cedula.Some? && |cedula.value| <= CedulaWidth
  }

  /** The customer row inserted for a walk-in. */
  function NewCustomer(r: Request): Customer
    requires r.name.Some?
  {
    Customer(r.cedula, GivenName(r.name.value), FamilyName(r.name.value),
             OrNull(r.phone), OrNull(r.email), None)
  }

  /** `SELECT id_cliente FROM Cliente WHERE cedula = @cedula`; a NULL
      parameter matches nothing. */
  function CustomersWithCedula(customers: map<int, Customer>, cedula: Option<string>): (r: set<int>)
    ensures forall k :: k in r <==> k in customers && cedula.Some? && customers[k].cedula == cedula
  {
    set k | k in customers && cedula.Some? && customers[k].cedula == cedula
  }

  /** Step A: the caller's customer id, else the customer with that cedula,
      else a newly inserted customer. */
  function ResolveCustomer(s: Store, r: Request): (res: Result<(Store, int), Fault>)
    requires Valid(s)
    ensures Truthy(r.customer) ==> res == Ok((s, r.customer.value))
    ensures !Truthy(r.customer) && CustomersWithCedula(s.customers, r.cedula) != {} ==>
              res.Ok? && res.value.0 == s
              && res.value.1 in CustomersWithCedula(s.customers, r.cedula)
    ensures !Truthy(r.customer) && CustomersWithCedula(s.customers, r.cedula) == {} ==>
              (res.Ok? <==> r.name.Some? && CedulaAccepted(r.cedula))
    ensures !Truthy(r.customer) && CustomersWithCedula(s.customers, r.cedula) == {} && res.Ok? ==>
              var (s', id) := res.value;
              && id !in s.customers
              && s'.customers == s.customers[id := NewCustomer(r)]
              && s' == s.(customers := s'.customers, nextCustomer := s'.nextCustomer)
    ensures res.Ok? ==> Valid(res.value.0)
    ensures res.Ok? && !Truthy(r.customer) ==> res.value.1 in res.value.0.customers
  {
    if Truthy(r.customer) then Ok((s, r.customer.value))
    else
      var found := CustomersWithCedula(s.customers, r.cedula);
      if found != {} then Ok((s, LeastKey(found)))
      else if r.name.None? then Err(MissingCustomerName)
      else if !CedulaAccepted(r.cedula) then Err(RejectedCedula)
      else
        var id := s.nextCustomer;
        Ok((s.(customers := s.customers[id := NewCustomer(r)], nextCustomer := id + 1), id))
  }

  // ---------------------------------------------------------------------
  // B.-G. Sale, lines, invoice, totals, payment

  /** Step B: the sale header, with total 0 until step F. */
  function OpenSale(s: Store, r: Request, today: string): (res: Result<(Store, int), Fault>)
    requires Valid(s)
    ensures res.Ok? <==> r.branch in s.branches && r.cashier in s.employees
    ensures res.Ok? ==>
              var (s', id) := res.value;
              && id !in s.sales
              && s'.sales == s.sales[id := Sale(r.branch, r.cashier, today, 0)]
              && s' == s.(sales := s'.sales, nextSale := s'.nextSale)
              && Valid(s')
  {
    if r.branch !in s.branches then Err(UnknownBranch(r.branch))
    else if r.cashier !in s.employees then Err(UnknownCashier(r.cashier))
    else
      var id := s.nextSale;
      Ok((s.(sales := s.sales[id := Sale(r.branch, r.cashier, today, 0)], nextSale := id + 1), id))
  }

  /** Step C: one sale line per product item, in cart order; an unknown
      product aborts the whole batch. */
  function WriteSaleLines(s: Store, sale: int, products: seq<Item>): (res: Result<Store, Fault>)
    ensures res.Ok? <==> forall x :: x in products ==> x.product in s.products
    ensures res.Ok? ==>
              res.value == s.(saleLines := s.saleLines + SaleLinesFor(sale, products))
    decreases |products|
  {
    if products == [] then Ok(s)
    else if products[0].product !in s.products then Err(UnknownProduct(products[0].product))
    else
      SaleLinesCons(sale, products);
      assert forall x :: x in products ==> x == products[0] || x in products[1..];
      WriteSaleLines(s.(saleLines := s.saleLines + [SaleLineOf(sale, products[0])]), sale, products[1..])
  }

  /** Step D: the invoice header, all amounts 0 until step F. */
  function OpenInvoice(s: Store, sale: int, customer: int, branch: int, today: string, number: string)
    : (res: Result<(Store, int), Fault>)
    requires Valid(s)
    ensures res.Ok? <==> customer in s.customers
    ensures res.Ok? ==>
              var (s', id) := res.value;
              && id !in s.invoices
              && s'.invoices == s.invoices[id := Invoice(sale, customer, branch, number, today, 0, 0, 0)]
              && s' == s.(invoices := s'.invoices, nextInvoice := s'.nextInvoice)
              && Valid(s')
  {
    if customer !in s.customers then Err(UnknownCustomer(customer))
    else
      var id := s.nextInvoice;
      var header := Invoice(sale, customer, branch, number, today, 0, 0, 0);
      Ok((s.(invoices := s.invoices[id := header], nextInvoice := id + 1), id))
  }

  /** Step E: one invoice line per service item, in cart order, each
      followed by marking its appointment attended; an unknown service
      aborts the whole batch. */
  function WriteServiceLines(s: Store, invoice: int, services: seq<Item>): (res: Result<Store, Fault>)
    ensures res.Ok? <==> forall x :: x in services ==> x.service in s.services
    ensures res.Ok? ==>
              res.value == s.(invoiceLines := s.invoiceLines + InvoiceLinesFor(invoice, services),
                              appointments := MarkAttended(s.appointments, CitedAppointments(services)))
    decreases |services|
  {
    if services == [] then
      assert MarkAttended(s.appointments, {}) == s.appointments;
      Ok(s)
    else
      var it := services[0];
      if it.service !in s.services then Err(UnknownService(it.service))
      else
        ServiceLineStep(s, invoice, services);
        assert forall x :: x in services ==> x == it || x in services[1..];
        WriteServiceLines(WriteServiceLine(s, invoice, it), invoice, services[1..])
  }

  /** One service line: its invoice line, then its appointment marked attended. */
  function WriteServiceLine(s: Store, invoice: int, it: Item): Store {
    var s1 := s.(invoiceLines := s.invoiceLines + [InvoiceLineOf(invoice, it)]);
    if Truthy(it.appointment) then s1.(appointments := SetAttended(s1.appointments, it.appointment.value))
    else s1
  }

  /** Writing the first service line and then the rest writes them all. */
  lemma ServiceLineStep(s: Store, invoice: int, services: seq<Item>)
    requires services != []
    ensures var s2 := WriteServiceLine(s, invoice, services[0]);
            s2.(invoiceLines := s2.invoiceLines + InvoiceLinesFor(invoice, services[1..]),
                appointments := MarkAttended(s2.appointments, CitedAppointments(services[1..])))
            == s.(invoiceLines := s.invoiceLines + InvoiceLinesFor(invoice, services),
                  appointments := MarkAttended(s.appointments, CitedAppointments(services)))
  {
    var it := services[0];
    var s2 := WriteServiceLine(s, invoice, it);
    InvoiceLinesStep(s.invoiceLines, invoice, services);
    AttendedStep(s.appointments, services);
    assert s2 == s.(invoiceLines := s.invoiceLines + [InvoiceLineOf(invoice, it)],
                    appointments := s2.appointments);
  }

  lemma InvoiceLinesStep(lines: seq<InvoiceLine>, invoice: int, services: seq<Item>)
    requires services != []
    ensures (lines + [InvoiceLineOf(invoice, services[0])]) + InvoiceLinesFor(invoice, services[1..])
            == lines + InvoiceLinesFor(invoice, services)
  {
    InvoiceLinesCons(invoice, services);
  }

  lemma AttendedStep(m: map<int, Appointment>, services: seq<Item>)
    requires services != []
    ensures var it := services[0];
            var m1 := if Truthy(it.appointment) then SetAttended(m, it.appointment.value) else m;
            MarkAttended(m1, CitedAppointments(services[1..])) == MarkAttended(m, CitedAppointments(services))
  {
    var it := services[0];
    CitedCons(services);
    if Truthy(it.appointment) {
      MarkAttendedAfterUpdate(m, it.appointment.value, CitedAppointments(services[1..]));
    } else {
      assert CitedAppointments(services) == CitedAppointments(services[1..]);
    }
  }

  /** Step F: the caller's figures, not recomputed. The sale's `total`
      column receives the request's subtotal. */
  function FinalizeTotals(s: Store, sale: int, invoice: int, r: Request): (s': Store)
    requires sale in s.sales && invoice in s.invoices
    ensures s'.sales == s.sales[sale := s.sales[sale].(total := r.subtotal)]
    ensures s'.invoices == s.invoices[invoice := s.invoices[invoice].(subtotal := r.subtotal, tax := r.tax, total := r.total)]
    ensures s' == s.(sales := s'.sales, invoices := s'.invoices)
  {
    s.(sales := s.sales[sale := s.sales[sale].(total := r.subtotal)],
       invoices := s.invoices[invoice := s.invoices[invoice].(subtotal := r.subtotal, tax := r.tax, total := r.total)])
  }

  /** Step G: one payment of the request's total for the invoice. */
  function RecordPayment(s: Store, invoice: int, r: Request, today: string): (s': Store)
    ensures s'.payments == s.payments + [Payment(invoice, today, r.paymentMethod, r.total)]
    ensures s' == s.(payments := s'.payments)
  {
    s.(payments := s.payments + [Payment(invoice, today, r.paymentMethod, r.total)])
  }

  // ---------------------------------------------------------------------
  // The transaction

  /** Exactly the carts the database accepts: the customer can be
      resolved (an id the caller gives must exist, since the invoice
      references it), the branch and cashier exist, and every product and
      service line names an existing product or service. Appointments play
      no part: settling one that is already attended is never an error. */
  predicate Settleable(s: Store, r: Request) {
    && (if Truthy(r.customer) then r.customer.value in s.customers
        else CustomersWithCedula(s.customers, r.cedula) != {}
             || (r.name.Some? && CedulaAccepted(r.cedula)))
    && r.branch in s.branches
    && r.cashier in s.employees
    && (forall it :: it in r.items && it.kind == ProductKind ==> it.product in s.products)
    && (forall it :: it in r.items && it.kind == ServiceKind ==> it.service in s.services)
  }

  /** `procesarVentaCompleta`: `today` stands for GETDATE() and `number`
      for the invoice number built from the clock. */
  function Settle(s: Store, r: Request, today: string, number: string)
    : (res: Result<(Store, Receipt), Fault>)
    requires Valid(s)
    ensures res.Ok? <==> Settleable(s, r)
  {
    ItemsOfKindMembers(r.items, ProductKind);
    ItemsOfKindMembers(r.items, ServiceKind);
    var c :- ResolveCustomer(s, r);
    var (s1, customer) := c;
    var v :- OpenSale(s1, r, today);
    var (s2, sale) := v;
    var s3 :- WriteSaleLines(s2, sale, ItemsOfKind(r.items, ProductKind));
    var f :- OpenInvoice(s3, sale, customer, r.branch, today, number);
    var (s4, invoice) := f;
    var s5 :- WriteServiceLines(s4, invoice, ItemsOfKind(r.items, ServiceKind));
    var s6 := FinalizeTotals(s5, sale, invoice, r);
    var s7 := RecordPayment(s6, invoice, r, today);
    Ok((s7, Receipt(invoice, number, r.total)))
  }

  /** The store the database holds once the transaction ends: the
      committed store, or after a rollback the store it started from. */
  function Commit(s: Store, res: Result<(Store, Receipt), Fault>): Store {
    if res.Ok? then res.value.0 else s
  }

  /** Every cart that is not settleable is refused. The rollback itself is
      carried by the model's shape: a fault holds no store, so `Commit`
      keeps the store the transaction started from, and the second ensures
      holds by `Commit`'s definition once the first is proved. */
  lemma SettleRollback(s: Store, r: Request, today: string, number: string)
    requires Valid(s)
    requires !Settleable(s, r)
    ensures Settle(s, r, today, number).Err?
    ensures Commit(s, Settle(s, r, today, number)) == s
  {
  }

  /** `s1` ... `s5` are the in-flight stores after steps A to E, and
      `customer`, `sale`, `invoice` the ids those steps produce. */
  predicate Steps(s: Store, r: Request, today: string, number: string,
                  s1: Store, customer: int, s2: Store, sale: int, s3: Store,
                  s4: Store, invoice: int, s5: Store)
    requires Valid(s)
  {
    && ResolveCustomer(s, r) == Ok((s1, customer))
    && Valid(s1) && OpenSale(s1, r, today) == Ok((s2, sale))
    && WriteSaleLines(s2, sale, ItemsOfKind(r.items, ProductKind)) == Ok(s3)
    && Valid(s3) && OpenInvoice(s3, sale, customer, r.branch, today, number) == Ok((s4, invoice))
    && WriteServiceLines(s4, invoice, ItemsOfKind(r.items, ServiceKind)) == Ok(s5)
  }

  /** The intermediate stores of a committed settlement, step by step. */
  lemma SettleSteps(s: Store, r: Request, today: string, number: string)
    returns (s1: Store, customer: int, s2: Store, sale: int, s3: Store, s4: Store, invoice: int, s5: Store)
    requires Valid(s)
    requires Settle(s, r, today, number).Ok?
    ensures Steps(s, r, today, number, s1, customer, s2, sale, s3, s4, invoice, s5)
    ensures sale in s5.sales && invoice in s5.invoices
    ensures Settle(s, r, today, number)
            == Ok((RecordPayment(FinalizeTotals(s5, sale, invoice, r), invoice, r, today),
                   Receipt(invoice, number, r.total)))
  {
    var c := ResolveCustomer(s, r).value;
    s1, customer := c.0, c.1;
    var v := OpenSale(s1, r, today).value;
    s2, sale := v.0, v.1;
    s3 := WriteSaleLines(s2, sale, ItemsOfKind(r.items, ProductKind)).value;
    var f := OpenInvoice(s3, sale, customer, r.branch, today, number).value;
    s4, invoice := f.0, f.1;
    s5 := WriteServiceLines(s4, invoice, ItemsOfKind(r.items, ServiceKind)).value;
  }

  /** Which columns each of steps A to E may write. */
  lemma StepShapes(s: Store, r: Request, today: string, number: string,
                  s1: Store, customer: int, s2: Store, sale: int, s3: Store,
                  s4: Store, invoice: int, s5: Store)
    requires Valid(s)
    requires Steps(s, r, today, number, s1, customer, s2, sale, s3, s4, invoice, s5)
    ensures s1 == s.(customers := s1.customers, nextCustomer := s1.nextCustomer)
    ensures s2 == s1.(sales := s2.sales, nextSale := s2.nextSale)
    ensures s3 == s2.(saleLines := s3.saleLines)
    ensures s4 == s3.(invoices := s4.invoices, nextInvoice := s4.nextInvoice)
    ensures s5 == s4.(invoiceLines := s5.invoiceLines, appointments := s5.appointments)
    ensures Valid(s4)
  {
    ResolveShape(s, r, s1, customer);
    SaleLinesShape(s2, sale, ItemsOfKind(r.items, ProductKind), s3);
    ServiceLinesShape(s4, invoice, ItemsOfKind(r.items, ServiceKind), s5);
  }

  lemma ResolveShape(s: Store, r: Request, s1: Store, customer: int)
    requires Valid(s)
    requires ResolveCustomer(s, r) == Ok((s1, customer))
    ensures s1 == s.(customers := s1.customers, nextCustomer := s1.nextCustomer)
  {
  }

  lemma SaleLinesShape(s2: Store, sale: int, products: seq<Item>, s3: Store)
    requires WriteSaleLines(s2, sale, products) == Ok(s3)
    ensures s3 == s2.(saleLines := s3.saleLines)
  {
  }

  lemma ServiceLinesShape(s4: Store, invoice: int, services: seq<Item>, s5: Store)
    requires WriteServiceLines(s4, invoice, services) == Ok(s5)
    ensures s5 == s4.(invoiceLines := s5.invoiceLines, appointments := s5.appointments)
  {
  }

  /** Through steps A to E the sales table gains exactly the new header. */
  lemma StepsSales(s: Store, r: Request, today: string, number: string,
                  s1: Store, customer: int, s2: Store, sale: int, s3: Store,
                  s4: Store, invoice: int, s5: Store)
    requires Valid(s)
    requires Steps(s, r, today, number, s1, customer, s2, sale, s3, s4, invoice, s5)
    ensures sale !in s.sales
    ensures s5.sales == s.sales[sale := Sale(r.branch, r.cashier, today, 0)]
  {
    StepShapes(s, r, today, number, s1, customer, s2, sale, s3, s4, invoice, s5);
  }

  /** Through steps A to E the invoices table gains exactly the new header. */
  lemma StepsInvoices(s: Store, r: Request, today: string, number: string,
                  s1: Store, customer: int, s2: Store, sale: int, s3: Store,
                  s4: Store, invoice: int, s5: Store)
    requires Valid(s)
    requires Steps(s, r, today, number, s1, customer, s2, sale, s3, s4, invoice, s5)
    ensures invoice !in s.invoices
    ensures s5.invoices == s.invoices[invoice := Invoice(sale, customer, r.branch, number, today, 0, 0, 0)]
  {
    StepShapes(s, r, today, number, s1, customer, s2, sale, s3, s4, invoice, s5);
  }

  /** Through steps A to E the line tables grow by the cart's lines, the
      cited appointments are attended and no payment is recorded yet. */
  lemma StepsLines(s: Store, r: Request, today: string, number: string,
                  s1: Store, customer: int, s2: Store, sale: int, s3: Store,
                  s4: Store, invoice: int, s5: Store)
    requires Valid(s)
    requires Steps(s, r, today, number, s1, customer, s2, sale, s3, s4, invoice, s5)
    ensures s5.saleLines == s.saleLines + SaleLinesFor(sale, ItemsOfKind(r.items, ProductKind))
    ensures s5.invoiceLines == s.invoiceLines + InvoiceLinesFor(invoice, ItemsOfKind(r.items, ServiceKind))
    ensures s5.appointments
            == MarkAttended(s.appointments, CitedAppointments(ItemsOfKind(r.items, ServiceKind)))
    ensures s5.payments == s.payments
  {
    StepShapes(s, r, today, number, s1, customer, s2, sale, s3, s4, invoice, s5);
  }

  /** Steps A to E leave the other tables alone and keep the counters valid. */
  lemma StepsFrame(s: Store, r: Request, today: string, number: string,
                  s1: Store, customer: int, s2: Store, sale: int, s3: Store,
                  s4: Store, invoice: int, s5: Store)
    requires Valid(s)
    requires Steps(s, r, today, number, s1, customer, s2, sale, s3, s4, invoice, s5)
    ensures s5.branches == s.branches && s5.employees == s.employees && s5.schedules == s.schedules
    ensures s5.products == s.products && s5.services == s.services && s5.promotions == s.promotions
    ensures s5.productPromotions == s.productPromotions && s5.servicePromotions == s.servicePromotions
    ensures Valid(s5)
  {
    StepShapes(s, r, today, number, s1, customer, s2, sale, s3, s4, invoice, s5);
  }

  /** Overwriting a key that an earlier update wrote. */
  lemma OverwriteKey<K, V>(m: map<K, V>, m': map<K, V>, k: K, v: V, v': V)
    requires m' == m[k := v]
    ensures m'[k := v'] == m[k := v']
  {
  }

  /** Steps F and G on the in-flight store after step E. */
  lemma Closing(s5: Store, sale: int, invoice: int, r: Request, today: string)
    requires sale in s5.sales && invoice in s5.invoices
    ensures
      var s7 := RecordPayment(FinalizeTotals(s5, sale, invoice, r), invoice, r, today);
      && s7.sales == s5.sales[sale := s5.sales[sale].(total := r.subtotal)]
      && s7.invoices == s5.invoices[invoice := s5.invoices[invoice].(subtotal := r.subtotal, tax := r.tax, total := r.total)]
      && s7.saleLines == s5.saleLines && s7.invoiceLines == s5.invoiceLines
      && s7.appointments == s5.appointments
      && s7.payments == s5.payments + [Payment(invoice, today, r.paymentMethod, r.total)]
      && s7 == s5.(sales := s7.sales, invoices := s7.invoices, payments := s7.payments)
      && (Valid(s5) ==> Valid(s7))
  {
  }

  /** The customer of a committed settlement: the caller's id unchanged,
      else the existing customer with that cedula (no insert), else exactly
      one new customer named from the request. */
  lemma SettleCustomer(s: Store, r: Request, today: string, number: string)
    requires Valid(s)
    requires Settleable(s, r)
    ensures
      var s' := Settle(s, r, today, number).value.0;
      var rec := Settle(s, r, today, number).value.1;
      && rec.invoice in s'.invoices
      && var c := s'.invoices[rec.invoice].customer;
      && (Truthy(r.customer) ==> c == r.customer.value && s'.customers == s.customers)
      && (!Truthy(r.customer) && CustomersWithCedula(s.customers, r.cedula) != {} ==>
            c in CustomersWithCedula(s.customers, r.cedula) && s'.customers == s.customers)
      && (!Truthy(r.customer) && CustomersWithCedula(s.customers, r.cedula) == {} ==>
            r.name.Some? && c !in s.customers
            && s'.customers == s.customers[c := NewCustomer(r)])
  {
    var s1, customer, s2, sale, s3, s4, invoice, s5 := SettleSteps(s, r, today, number);
    assert s5.customers == s1.customers;
    assert s5.invoices[invoice].customer == customer;
  }

  /** The sale header of a committed settlement is new, and its total
      column holds the request's subtotal (not its total). */
  lemma SettleSale(s: Store, r: Request, today: string, number: string)
    requires Valid(s)
    requires Settleable(s, r)
    ensures
      var s' := Settle(s, r, today, number).value.0;
      var rec := Settle(s, r, today, number).value.1;
      && rec.invoice in s'.invoices
      && var sale := s'.invoices[rec.invoice].sale;
      && sale !in s.sales
      && s'.sales == s.sales[sale := Sale(r.branch, r.cashier, today, r.subtotal)]
  {
    var s1, customer, s2, sale, s3, s4, invoice, s5 := SettleSteps(s, r, today, number);
    Closing(s5, sale, invoice, r, today);
    StepsSales(s, r, today, number, s1, customer, s2, sale, s3, s4, invoice, s5);
    StepsInvoices(s, r, today, number, s1, customer, s2, sale, s3, s4, invoice, s5);
    OverwriteKey(s.sales, s5.sales, sale, Sale(r.branch, r.cashier, today, 0),
                 Sale(r.branch, r.cashier, today, r.subtotal));
  }

  /** A committed settlement appends one sale line per product item, in
      cart order, all on the invoice's sale. */
  lemma SettleSaleLines(s: Store, r: Request, today: string, number: string)
    requires Valid(s)
    requires Settleable(s, r)
    ensures
      var s' := Settle(s, r, today, number).value.0;
      var rec := Settle(s, r, today, number).value.1;
      && rec.invoice in s'.invoices
      && var sale := s'.invoices[rec.invoice].sale;
      && s'.saleLines == s.saleLines + SaleLinesFor(sale, ItemsOfKind(r.items, ProductKind))
  {
    var s1, customer, s2, sale, s3, s4, invoice, s5 := SettleSteps(s, r, today, number);
    Closing(s5, sale, invoice, r, today);
    StepsInvoices(s, r, today, number, s1, customer, s2, sale, s3, s4, invoice, s5);
    StepsLines(s, r, today, number, s1, customer, s2, sale, s3, s4, invoice, s5);
  }

  /** The invoice header of a committed settlement is new and carries the
      branch, the invoice number, the date and the request's subtotal, tax
      and total as given; the receipt repeats the number and the total. */
  lemma SettleInvoice(s: Store, r: Request, today: string, number: string)
    requires Valid(s)
    requires Settleable(s, r)
    ensures
      var s' := Settle(s, r, today, number).value.0;
      var rec := Settle(s, r, today, number).value.1;
      && rec.invoice !in s.invoices
      && rec.invoice in s'.invoices
      && var inv := s'.invoices[rec.invoice];
      && inv == Invoice(inv.sale, inv.customer, r.branch, number, today, r.subtotal, r.tax, r.total)
      && s'.invoices == s.invoices[rec.invoice := inv]
      && rec == Receipt(rec.invoice, number, r.total)
  {
    var s1, customer, s2, sale, s3, s4, invoice, s5 := SettleSteps(s, r, today, number);
    Closing(s5, sale, invoice, r, today);
    StepsInvoices(s, r, today, number, s1, customer, s2, sale, s3, s4, invoice, s5);
    var header := Invoice(sale, customer, r.branch, number, today, 0, 0, 0);
    OverwriteKey(s.invoices, s5.invoices, invoice, header,
                 header.(subtotal := r.subtotal, tax := r.tax, total := r.total));
  }

  /** A committed settlement appends one invoice line of quantity 1 per
      service item, in cart order, marks every cited appointment attended,
      and records exactly one payment: the request's total, by the
      request's method, against the new invoice. */
  lemma SettleServiceLines(s: Store, r: Request, today: string, number: string)
    requires Valid(s)
    requires Settleable(s, r)
    ensures
      var s' := Settle(s, r, today, number).value.0;
      var rec := Settle(s, r, today, number).value.1;
      var services := ItemsOfKind(r.items, ServiceKind);
      && s'.invoiceLines == s.invoiceLines + InvoiceLinesFor(rec.invoice, services)
      && s'.appointments == MarkAttended(s.appointments, CitedAppointments(services))
      && s'.payments == s.payments + [Payment(rec.invoice, today, r.paymentMethod, r.total)]
  {
    var s1, customer, s2, sale, s3, s4, invoice, s5 := SettleSteps(s, r, today, number);
    Closing(s5, sale, invoice, r, today);
    StepsLines(s, r, today, number, s1, customer, s2, sale, s3, s4, invoice, s5);
  }

  /** A committed settlement touches no table besides customers, sales,
      invoices, their lines, appointments and payments, and keeps the
      identity counters valid. */
  lemma SettleFrame(s: Store, r: Request, today: string, number: string)
    requires Valid(s)
    requires Settleable(s, r)
    ensures
      var s' := Settle(s, r, today, number).value.0;
      && s'.branches == s.branches && s'.employees == s.employees && s'.schedules == s.schedules
      && s'.products == s.products && s'.services == s.services && s'.promotions == s.promotions
      && s'.productPromotions == s.productPromotions && s'.servicePromotions == s.servicePromotions
      && Valid(s')
  {
    var s1, customer, s2, sale, s3, s4, invoice, s5 := SettleSteps(s, r, today, number);
    StepsFrame(s, r, today, number, s1, customer, s2, sale, s3, s4, invoice, s5);
    Closing(s5, sale, invoice, r, today);
  }

}
