/** The `estetica` database as an immutable value: every table is a map
    from its identity key to its row, a link table is a set of pairs, and
    a table whose rows are never addressed by key after insertion
    (sale lines, invoice lines, payments) is the sequence of its rows in
    insertion order. Money columns (DECIMAL(10,2)) are integers counting
    cents and are only ever copied; dates are opaque text. */
module Schema {
  import opened Wrappers

  datatype Branch = Branch(name: string)

  /** `estetica.Empleado`. `role` is 'admin', 'gerente', 'empleado', ...;
      `password` is NULL for staff created by a branch manager. */
  datatype Employee = Employee(
    branch: int,
    cedula: string,
    givenNames: string,
    familyNames: string,
    specialty: Option<string>,
    phone: Option<string>,
    status: string,
    role: string,
    password: Option<string>)

  /** `estetica.Horario_Empleado`: one working shift of an employee on a weekday. */
  datatype Schedule = Schedule(employee: int, weekday: string, start: string, end: string)

  /** `estetica.Cliente`. */
  datatype Customer = Customer(
    cedula: Option<string>,
    givenNames: string,
    familyNames: string,
    phone: Option<string>,
    email: Option<string>,
    password: Option<string>)

  /** `estetica.Cita`; `status` is 'Pendiente', 'Atendida' or 'Cancelada'. */
  datatype Appointment = Appointment(
    branch: int, customer: int, employee: int, date: string, hour: string, status: string)

  datatype Product = Product(name: string)

  datatype Service = Service(name: string)

  /** `estetica.Venta`: the retail sale header. */
  datatype Sale = Sale(branch: int, cashier: int, date: string, total: int)

  /** `estetica.Detalle_Venta`. */
  datatype SaleLine = SaleLine(
    sale: int, product: int, quantity: int, unitPrice: int, discount: int, subtotal: int)

  /** `estetica.Factura`. */
  datatype Invoice = Invoice(
    sale: int, customer: int, branch: int, number: string, date: string,
    subtotal: int, tax: int, total: int)

  /** `estetica.Servicio_Factura`. */
  datatype InvoiceLine = InvoiceLine(
    invoice: int, service: int, quantity: int, unitPrice: int, discount: int, subtotal: int)

  /** `estetica.Pago`. */
  datatype Payment = Payment(invoice: int, date: string, paymentType: string, amount: int)

  /** `estetica.Promocion`; `active` is the CHAR(1) flag 'V' / 'F' (or NULL). */
  datatype Promotion = Promotion(name: string, active: Option<char>)

  /** A row of `Producto_Promocion` or `Servicio_Promocion`. */
  datatype Link = Link(item: int, promotion: int)

  datatype Store = Store(
    branches: map<int, Branch>,
    employees: map<int, Employee>,
    nextEmployee: int,
    schedules: map<int, Schedule>,
    customers: map<int, Customer>,
    nextCustomer: int,
    appointments: map<int, Appointment>,
    products: map<int, Product>,
    services: map<int, Service>,
    sales: map<int, Sale>,
    nextSale: int,
    saleLines: seq<SaleLine>,
    invoices: map<int, Invoice>,
    nextInvoice: int,
    invoiceLines: seq<InvoiceLine>,
    payments: seq<Payment>,
    promotions: map<int, Promotion>,
    productPromotions: set<Link>,
    servicePromotions: set<Link>)

  /** Each IDENTITY column's next value lies above every id in its table,
      so an INSERT never reuses a key. */
  predicate Valid(s: Store) {
    && (forall k :: k in s.employees ==> k < s.nextEmployee)
    && (forall k :: k in s.customers ==> k < s.nextCustomer)
    && (forall k :: k in s.sales ==> k < s.nextSale)
    && (forall k :: k in s.invoices ==> k < s.nextInvoice)
  }

  /** Every schedule belongs to an existing employee. */
  predicate SchedulesIntact(s: Store) {
    forall k :: k in s.schedules ==> s.schedules[k].employee in s.employees
  }

  /** Every promotion link points at an existing promotion. */
  predicate PromotionLinksIntact(s: Store) {
    && (forall l :: l in s.productPromotions ==> l.promotion in s.promotions)
    && (forall l :: l in s.servicePromotions ==> l.promotion in s.promotions)
  }
}
