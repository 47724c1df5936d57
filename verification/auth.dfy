/** `loginUser`: the employee table is searched first and the customer
    table only when no employee matches. A row matches when both its
    cedula and its password equal the submitted ones; a NULL password
    never matches. When several rows match, the one with the lowest id is
    taken. */
module Auth {
  import opened Wrappers
  import opened Tables
  import opened Schema

  const EmployeeKind := "empleado"
  const CustomerKind := "cliente"
  const CustomerRole := "cliente"

  /** `{ type, data: { id, nombres, apellidos, rol } }`. */
  datatype Login = Login(kind: string, id: int, givenNames: string, familyNames: string, role: string)

  predicate EmployeeMatches(e: Employee, cedula: string, password: string) {
    e.cedula == cedula && e.password == Some(password)
  }

  predicate CustomerMatches(c: Customer, cedula: string, password: string) {
    c.cedula == Some(cedula) && c.password == Some(password)
  }

  function EmployeeHits(s: Store, cedula: string, password: string): (r: set<int>)
    ensures forall k :: k in r <==> k in s.employees && EmployeeMatches(s.employees[k], cedula, password)
  {
    set k | k in s.employees && EmployeeMatches(s.employees[k], cedula, password)
  }

  function CustomerHits(s: Store, cedula: string, password: string): (r: set<int>)
    ensures forall k :: k in r <==> k in s.customers && CustomerMatches(s.customers[k], cedula, password)
  {
    set k | k in s.customers && CustomerMatches(s.customers[k], cedula, password)
  }

  /** The lookup. `None` is the source's `null`. */
  function LoginUser(s: Store, cedula: string, password: string): (r: Option<Login>)
    ensures r.None? <==>
              (forall k :: k in s.employees ==> !EmployeeMatches(s.employees[k], cedula, password))
              && (forall k :: k in s.customers ==> !CustomerMatches(s.customers[k], cedula, password))
    ensures r.Some? && r.value.kind == EmployeeKind ==>
              && r.value.id in s.employees
              && (var e := s.employees[r.value.id];
                  && EmployeeMatches(e, cedula, password)
                  && r.value == Login(EmployeeKind, r.value.id, e.givenNames, e.familyNames, e.role))
              && (forall k :: k in s.employees && EmployeeMatches(s.employees[k], cedula, password) ==> r.value.id <= k)
    ensures r.Some? && r.value.kind == CustomerKind ==>
              && r.value.id in s.customers
              && (var c := s.customers[r.value.id];
                  && CustomerMatches(c, cedula, password)
                  && r.value == Login(CustomerKind, r.value.id, c.givenNames, c.familyNames, CustomerRole))
              && (forall k :: k in s.customers && CustomerMatches(s.customers[k], cedula, password) ==> r.value.id <= k)
    ensures r.Some? ==> r.value.kind == EmployeeKind || r.value.kind == CustomerKind
  {
    var staff := EmployeeHits(s, cedula, password);
    if staff != {} then
      var k := LeastKey(staff);
      var e := s.employees[k];
      Some(Login(EmployeeKind, k, e.givenNames, e.familyNames, e.role))
    else
      var clients := CustomerHits(s, cedula, password);
      if clients != {} then
        var k := LeastKey(clients);
        var c := s.customers[k];
        Some(Login(CustomerKind, k, c.givenNames, c.familyNames, CustomerRole))
      else None
  }

  /** Employees take precedence: whenever some employee matches, the result
      is an employee login carrying that employee's stored role, whatever
      the customer table holds. */
  lemma EmployeeFirst(s: Store, cedula: string, password: string, k: int)
    requires k in s.employees && EmployeeMatches(s.employees[k], cedula, password)
    ensures var r := LoginUser(s, cedula, password);
            r.Some? && r.value.kind == EmployeeKind && r.value.role == s.employees[r.value.id].role
  {
    assert k in EmployeeHits(s, cedula, password);
  }

  /** A customer login happens exactly when a customer matches and no
      employee does, and its role is always 'cliente'. */
  lemma CustomerOnlyWithoutEmployee(s: Store, cedula: string, password: string)
    ensures var r := LoginUser(s, cedula, password);
            (r.Some? && r.value.kind == CustomerKind)
            <==> EmployeeHits(s, cedula, password) == {} && CustomerHits(s, cedula, password) != {}
    ensures var r := LoginUser(s, cedula, password);
            r.Some? && r.value.kind == CustomerKind ==> r.value.role == CustomerRole
  {
  }

  /** Changing customers does not change an employee's login. */
  lemma EmployeeLoginIgnoresCustomers(s: Store, customers: map<int, Customer>, cedula: string, password: string)
    requires EmployeeHits(s, cedula, password) != {}
    ensures LoginUser(s.(customers := customers), cedula, password) == LoginUser(s, cedula, password)
  {
    assert EmployeeHits(s.(customers := customers), cedula, password) == EmployeeHits(s, cedula, password);
  }
}
