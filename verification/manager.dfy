/** The branch manager's rules over the store (`ManagerModel`): the staff
    listing of a branch, hiring an employee and dismissing one who has no
    pending appointment. */
module Manager {
  import opened Wrappers
  import opened Text
  import opened Schema
  import opened Ordering
  import opened Staff

  const EmployeeRole := "empleado"
  const Pending := "Pendiente"
  const HasPendingAppointments := "No se puede eliminar: el empleado tiene citas pendientes"

  /** `ORDER BY nombres` on employees. */
  function GivenNames(s: Store): int -> string {
    k => if k in s.employees then s.employees[k].givenNames else ""
  }

  /** A row the staff listing of `branch` shows. */
  predicate Listed(s: Store, branch: int, k: int) {
    k in s.employees && s.employees[k].branch == branch && s.employees[k].specialty.Some?
  }

  /** `getEmpleadosSucursal`: the employees of the branch whose specialty is
      not NULL, each once, ordered by given names. */
  function EmployeesOfBranch(s: Store, branch: int): (r: seq<int>)
    ensures forall k :: k in r <==> Listed(s, branch, k)
    ensures Distinct(r)
    ensures Sorted(r, GivenNames(s))
  {
    var ids := set k | k in s.employees && Listed(s, branch, k);
    OrderByListing(ids, GivenNames(s));
    OrderBy(ids, GivenNames(s))
  }

  /** The row `crearEmpleado` writes: active, role 'empleado', no password;
      the specialty is stored as submitted. */
  function EmployeeRow(d: StaffData): Employee {
    Employee(d.branch, d.cedula, d.givenNames, d.familyNames, d.specialty, OrNull(d.phone), Active, EmployeeRole, None)
  }

  /** `crearEmpleado`: a new active employee row of role 'empleado' without
      a password, and the new id. */
  function CreateEmployee(s: Store, d: StaffData): (res: (Store, int))
    requires Valid(s)
    ensures var (s', id) := res;
            && id !in s.employees && id in s'.employees
            && s'.employees == s.employees[id := s'.employees[id]]
            && s'.employees[id].role == EmployeeRole
            && s'.employees[id].status == Active
            && s'.employees[id].password.None?
            && s'.employees[id].specialty == d.specialty
            && s'.employees[id].branch == d.branch
            && s'.employees[id].cedula == d.cedula
            && s'.employees[id].givenNames == d.givenNames
            && s'.employees[id].familyNames == d.familyNames
            && s'.employees[id].phone == OrNull(d.phone)
            && Valid(s')
            && s' == s.(employees := s'.employees, nextEmployee := s'.nextEmployee)
  {
    Hire(s, EmployeeRow(d))
  }

  /** A new employee shows in their branch's staff listing exactly when a
      specialty was given; the listing of every other row is unchanged. */
  lemma CreateEmployeeListed(s: Store, d: StaffData, b: int, k: int)
    requires Valid(s)
    ensures var (s', id) := CreateEmployee(s, d);
            && (id in EmployeesOfBranch(s', d.branch) <==> d.specialty.Some?)
            && (k != id ==> (k in EmployeesOfBranch(s', b) <==> k in EmployeesOfBranch(s, b)))
  {
    var (s', id) := CreateEmployee(s, d);
    assert Listed(s', d.branch, id) <==> d.specialty.Some?;
    if k != id {
      assert Listed(s', b, k) <==> Listed(s, b, k);
    }
  }

  /** Some appointment of the employee is still 'Pendiente'. */
  predicate HasPending(s: Store, employee: int) {
    exists k :: k in s.appointments && s.appointments[k].employee == employee && s.appointments[k].status == Pending
  }

  /** `eliminarEmpleado`: refuses, deleting nothing, while the employee has a
      pending appointment; otherwise deletes the employee's schedules and
      then the employee. The employee need not exist. */
  function DeleteEmployee(s: Store, employee: int): (res: Result<Store, string>)
    ensures res.Err? <==> HasPending(s, employee)
    ensures res.Err? ==> res.error == HasPendingAppointments
    ensures res.Ok? ==>
              && res.value.employees == s.employees - {employee}
              && (forall k :: k in res.value.schedules <==> k in s.schedules && s.schedules[k].employee != employee)
              && (forall k :: k in res.value.schedules ==> res.value.schedules[k] == s.schedules[k])
              && res.value == s.(employees := res.value.employees, schedules := res.value.schedules)
  {
    if HasPending(s, employee) then Err(HasPendingAppointments)
    else Ok(Dismiss(s, employee))
  }

  /** A dismissed employee leaves the staff listings, no one else does, and
      no schedule is left without its employee. */
  lemma DeleteEmployeeUnlists(s: Store, employee: int, b: int, k: int)
    requires SchedulesIntact(s)
    ensures var res := DeleteEmployee(s, employee);
            res.Ok? ==>
              && employee !in EmployeesOfBranch(res.value, b)
              && (k != employee ==> (k in EmployeesOfBranch(res.value, b) <==> k in EmployeesOfBranch(s, b)))
              && SchedulesIntact(res.value)
  {
  }
}
