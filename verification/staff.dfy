/** The two writes to `estetica.Empleado` that the administrator and the
    branch manager share: inserting a staff member under the next identity
    value, and dismissing one by first deleting their working schedules
    and then their row. */
module Staff {
  import opened Wrappers
  import opened Schema

  const Active := "Activo"

  /** The fields of a staff member as the administrator's and the branch
      manager's forms submit them. */
  datatype StaffData = StaffData(
    branch: int,
    cedula: string,
    givenNames: string,
    familyNames: string,
    specialty: Option<string>,
    phone: Option<string>,
    password: Option<string>)

  /** `INSERT INTO estetica.Empleado ...; SELECT SCOPE_IDENTITY()`: the row
      is stored under a fresh id, which is returned, and no other table or
      row changes. */
  function Hire(s: Store, e: Employee): (res: (Store, int))
    requires Valid(s)
    ensures res.1 !in s.employees
    ensures res.0.employees == s.employees[res.1 := e]
    ensures Valid(res.0)
    ensures res.0 == s.(employees := res.0.employees, nextEmployee := res.0.nextEmployee)
  {
    var id := s.nextEmployee;
    (s.(employees := s.employees[id := e], nextEmployee := id + 1), id)
  }

  /** The schedules that do not belong to `employee`. */
  function SchedulesWithout(schedules: map<int, Schedule>, employee: int): (r: map<int, Schedule>)
    ensures forall k :: k in r <==> k in schedules && schedules[k].employee != employee
    ensures forall k :: k in r ==> r[k] == schedules[k]
  {
    map k | k in schedules && schedules[k].employee != employee :: schedules[k]
  }

  /** `DELETE FROM estetica.Horario_Empleado WHERE id_empleado = @id`, then
      `DELETE FROM estetica.Empleado WHERE id_empleado = @id`. Deleting an id
      that has no row deletes nothing. */
  function Dismiss(s: Store, employee: int): (s': Store)
    ensures s'.employees == s.employees - {employee}
    ensures forall k :: k in s'.schedules <==> k in s.schedules && s.schedules[k].employee != employee
    ensures forall k :: k in s'.schedules ==> s'.schedules[k] == s.schedules[k]
    ensures s' == s.(employees := s'.employees, schedules := s'.schedules)
  {
    s.(schedules := SchedulesWithout(s.schedules, employee), employees := s.employees - {employee})
  }

  /** Dismissal keeps every schedule attached to an existing employee and
      keeps the identity counters valid. */
  lemma DismissIntact(s: Store, employee: int)
    requires SchedulesIntact(s) && Valid(s)
    ensures SchedulesIntact(Dismiss(s, employee)) && Valid(Dismiss(s, employee))
  {
  }

  /** Hiring and then dismissing the new staff member gives back the
      employee and schedule tables the store started with. */
  lemma DismissUndoesHire(s: Store, e: Employee)
    requires Valid(s) && SchedulesIntact(s)
    ensures var (s1, id) := Hire(s, e);
            var s2 := Dismiss(s1, id);
            s2.employees == s.employees && s2.schedules == s.schedules
  {
    var (s1, id) := Hire(s, e);
    var s2 := Dismiss(s1, id);
    assert s2.employees == s.employees;
    forall k | k in s.schedules ensures s.schedules[k].employee != id {
      assert s.schedules[k].employee in s.employees;
    }
    assert s2.schedules == s.schedules;
  }
}
