/** The administrator's rules over the store (`AdminModel`): branches
    still lacking a manager, hiring and dismissing managers, and the
    promotion maintenance operations (re-assigning products and services,
    toggling the active flag, deleting a promotion with its links). Each
    of these is a sequence of independent statements with no transaction
    around it; the model states their effect when every statement
    succeeds. */
module Admin {
  import opened Wrappers
  import opened Text
  import opened Schema
  import opened Ordering
  import opened Staff

  const ManagerRole := "gerente"
  const NotAManager := "El empleado no es un gerente"

  /** Some employee of role 'gerente' works at `branch`. */
  predicate HasManager(s: Store, branch: int) {
    exists k :: k in s.employees && s.employees[k].branch == branch && s.employees[k].role == ManagerRole
  }

  /** `ORDER BY s.nombre` on branches. */
  function BranchName(s: Store): int -> string {
    k => if k in s.branches then s.branches[k].name else ""
  }

  /** `getSucursalesSinGerente`: the branches with no employee of role
      'gerente', each once, ordered by branch name. */
  function BranchesWithoutManager(s: Store): (r: seq<int>)
    ensures forall b :: b in r <==> b in s.branches && !HasManager(s, b)
    ensures Distinct(r)
    ensures Sorted(r, BranchName(s))
  {
    var ids := set b | b in s.branches && !HasManager(s, b);
    OrderByListing(ids, BranchName(s));
    OrderBy(ids, BranchName(s))
  }

  /** The row `crearGerente` writes: the status, role and specialty are fixed. */
  function ManagerRow(d: StaffData): Employee {
    Employee(d.branch, d.cedula, d.givenNames, d.familyNames, None, OrNull(d.phone), Active, ManagerRole, d.password)
  }

  /** `crearGerente`: a new employee row that is an active manager with no
      specialty, whatever the form carried, and the new id. */
  function CreateManager(s: Store, d: StaffData): (res: (Store, int))
    requires Valid(s)
    ensures var (s', id) := res;
            && id !in s.employees && id in s'.employees
            && s'.employees == s.employees[id := s'.employees[id]]
            && s'.employees[id].role == ManagerRole
            && s'.employees[id].status == Active
            && s'.employees[id].specialty.None?
            && s'.employees[id].branch == d.branch
            && s'.employees[id].password == d.password
            && s'.employees[id].cedula == d.cedula
            && s'.employees[id].givenNames == d.givenNames
            && s'.employees[id].familyNames == d.familyNames
            && s'.employees[id].phone == OrNull(d.phone)
            && Valid(s')
            && s' == s.(employees := s'.employees, nextEmployee := s'.nextEmployee)
  {
    Hire(s, ManagerRow(d))
  }

  /** After a manager is hired for a branch, the branch no longer lacks one,
      and every other branch lacks one exactly when it did before. */
  lemma CreateManagerStaffsBranch(s: Store, d: StaffData, b: int)
    requires Valid(s)
    ensures var s' := CreateManager(s, d).0;
            && d.branch !in BranchesWithoutManager(s')
            && (b != d.branch ==> (b in BranchesWithoutManager(s') <==> b in BranchesWithoutManager(s)))
  {
    var (s', id) := CreateManager(s, d);
    assert s'.employees[id].branch == d.branch;
    assert HasManager(s', d.branch);
    if b != d.branch {
      if HasManager(s, b) {
        var k :| k in s.employees && s.employees[k].branch == b && s.employees[k].role == ManagerRole;
        assert k in s'.employees && s'.employees[k] == s.employees[k];
      }
      if HasManager(s', b) {
        var k :| k in s'.employees && s'.employees[k].branch == b && s'.employees[k].role == ManagerRole;
        assert k != id;
        assert k in s.employees;
      }
    }
  }

  /** `eliminarGerente`: refuses, deleting nothing, unless the id is an
      employee of role 'gerente'; otherwise deletes that employee's
      schedules and then the employee. */
  function DeleteManager(s: Store, employee: int): (res: Result<Store, string>)
    ensures res.Err? <==> employee !in s.employees || s.employees[employee].role != ManagerRole
    ensures res.Err? ==> res.error == NotAManager
    ensures res.Ok? ==>
              && res.value.employees == s.employees - {employee}
              && (forall k :: k in res.value.schedules <==> k in s.schedules && s.schedules[k].employee != employee)
              && (forall k :: k in res.value.schedules ==> res.value.schedules[k] == s.schedules[k])
              && res.value == s.(employees := res.value.employees, schedules := res.value.schedules)
  {
    if employee !in s.employees || s.employees[employee].role != ManagerRole then Err(NotAManager)
    else Ok(Dismiss(s, employee))
  }

  /** A manager just hired can be dismissed, and that restores the
      employee and schedule tables. */
  lemma DeleteManagerUndoesCreate(s: Store, d: StaffData)
    requires Valid(s) && SchedulesIntact(s)
    ensures var (s1, id) := CreateManager(s, d);
            var res := DeleteManager(s1, id);
            res.Ok? && res.value.employees == s.employees && res.value.schedules == s.schedules
  {
    DismissUndoesHire(s, ManagerRow(d));
  }

  /** The items linked to promotion `p`. */
  function LinkedTo(links: set<Link>, p: int): set<int> {
    set l | l in links && l.promotion == p :: l.item
  }

  /** `DELETE ... WHERE id_promocion = @p` on a link table. */
  function Unlinked(links: set<Link>, p: int): (r: set<Link>)
    ensures forall l :: l in r <==> l in links && l.promotion != p
  {
    set l | l in links && l.promotion != p
  }

  /** The links after "delete all of `p`'s links, then insert one per id". */
  function Reassigned(links: set<Link>, p: int, ids: seq<int>): (r: set<Link>)
    ensures forall l :: l in r <==> (l in links && l.promotion != p) || (l.promotion == p && l.item in ids)
  {
    Unlinked(links, p) + (set i | i in ids :: Link(i, p))
  }

  /** Re-assignment makes `p`'s items exactly the given ids and leaves the
      items of every other promotion as they were. */
  lemma ReassignedLinks(links: set<Link>, p: int, ids: seq<int>, q: int)
    ensures LinkedTo(Reassigned(links, p, ids), p) == set i | i in ids
    ensures q != p ==> LinkedTo(Reassigned(links, p, ids), q) == LinkedTo(links, q)
  {
    var r := Reassigned(links, p, ids);
    forall i | i in ids ensures i in LinkedTo(r, p) {
      assert Link(i, p) in r;
    }
  }

  /** Re-assigning the same ids a second time changes nothing. */
  lemma ReassignIdempotent(links: set<Link>, p: int, ids: seq<int>)
    ensures Reassigned(Reassigned(links, p, ids), p, ids) == Reassigned(links, p, ids)
  {
  }

  /** The statements of `asignarProductosPromocion` / `asignarServiciosPromocion`:
      one DELETE, then one INSERT per id in list order. */
  method ReplaceLinks(links: set<Link>, p: int, ids: seq<int>) returns (r: set<Link>)
    ensures r == Reassigned(links, p, ids)
  {
    r := Unlinked(links, p);
    var n := 0;
    while n < |ids|
      invariant 0 <= n <= |ids|
      invariant forall l :: l in r <==> (l in links && l.promotion != p) || (l.promotion == p && l.item in ids[..n])
    {
      r := r + {Link(ids[n], p)};
      assert ids[..n + 1] == ids[..n] + [ids[n]];
      n := n + 1;
    }
    assert ids[..n] == ids;
  }

  /** `asignarProductosPromocion`: only the product links change. */
  method AssignProducts(s: Store, p: int, ids: seq<int>) returns (s': Store)
    ensures LinkedTo(s'.productPromotions, p) == set i | i in ids
    ensures forall q :: q != p ==> LinkedTo(s'.productPromotions, q) == LinkedTo(s.productPromotions, q)
    ensures s' == s.(productPromotions := s'.productPromotions)
  {
    var links := ReplaceLinks(s.productPromotions, p, ids);
    s' := s.(productPromotions := links);
    forall q ensures LinkedTo(links, q) == (if q == p then set i | i in ids else LinkedTo(s.productPromotions, q)) {
      ReassignedLinks(s.productPromotions, p, ids, q);
    }
  }

  /** `asignarServiciosPromocion`: only the service links change. */
  method AssignServices(s: Store, p: int, ids: seq<int>) returns (s': Store)
    ensures LinkedTo(s'.servicePromotions, p) == set i | i in ids
    ensures forall q :: q != p ==> LinkedTo(s'.servicePromotions, q) == LinkedTo(s.servicePromotions, q)
    ensures s' == s.(servicePromotions := s'.servicePromotions)
  {
    var links := ReplaceLinks(s.servicePromotions, p, ids);
    s' := s.(servicePromotions := links);
    forall q ensures LinkedTo(links, q) == (if q == p then set i | i in ids else LinkedTo(s.servicePromotions, q)) {
      ReassignedLinks(s.servicePromotions, p, ids, q);
    }
  }

  /** `CASE WHEN activa = 'V' THEN 'F' ELSE 'V' END`: a NULL flag, like any
      value other than 'V', becomes 'V'. */
  function Flip(active: Option<char>): (r: Option<char>)
    ensures r.Some? && (r.value == 'F' <==> active == Some('V'))
    ensures r.value == 'F' || r.value == 'V'
  {
    if active == Some('V') then Some('F') else Some('V')
  }

  /** `togglePromocion`: flips the flag of promotion `p`; an id with no row
      updates nothing. */
  function TogglePromotion(s: Store, p: int): (s': Store)
    ensures p in s.promotions ==>
              && p in s'.promotions
              && s'.promotions == s.promotions[p := s'.promotions[p]]
              && s'.promotions[p].name == s.promotions[p].name
              && s'.promotions[p].active == Flip(s.promotions[p].active)
    ensures p !in s.promotions ==> s' == s
    ensures s' == s.(promotions := s'.promotions)
  {
    if p in s.promotions then s.(promotions := s.promotions[p := s.promotions[p].(active := Flip(s.promotions[p].active))])
    else s
  }

  /** Toggling twice restores the store exactly when the flag was 'V' or 'F'
      (or there is no such promotion); a NULL or other flag ends as 'F'. */
  lemma ToggleTwice(s: Store, p: int)
    ensures TogglePromotion(TogglePromotion(s, p), p) == s
            <==> p !in s.promotions || s.promotions[p].active in {Some('V'), Some('F')}
    ensures p in s.promotions ==> TogglePromotion(TogglePromotion(s, p), p).promotions[p].active
                                  == (if s.promotions[p].active == Some('V') then Some('V') else Some('F'))
  {
    var t := TogglePromotion(TogglePromotion(s, p), p);
    if p in s.promotions && t == s {
      assert t.promotions[p].active == s.promotions[p].active;
    }
    if p in s.promotions && s.promotions[p].active in {Some('V'), Some('F')} {
      assert t.promotions[p] == s.promotions[p];
      assert t.promotions == s.promotions;
    }
  }

  /** `eliminarPromocion`: the product links, then the service links, then
      the promotion row. */
  function DeletePromotion(s: Store, p: int): (s': Store)
    ensures p !in s'.promotions && s'.promotions == s.promotions - {p}
    ensures forall l :: l in s'.productPromotions <==> l in s.productPromotions && l.promotion != p
    ensures forall l :: l in s'.servicePromotions <==> l in s.servicePromotions && l.promotion != p
    ensures s' == s.(promotions := s'.promotions, productPromotions := s'.productPromotions,
                     servicePromotions := s'.servicePromotions)
  {
    s.(productPromotions := Unlinked(s.productPromotions, p),
       servicePromotions := Unlinked(s.servicePromotions, p),
       promotions := s.promotions - {p})
  }

  /** Deleting a promotion leaves no link dangling and no other promotion
      loses an item. */
  lemma DeletePromotionIntact(s: Store, p: int, q: int)
    requires PromotionLinksIntact(s)
    ensures PromotionLinksIntact(DeletePromotion(s, p))
    ensures q != p ==> LinkedTo(DeletePromotion(s, p).productPromotions, q) == LinkedTo(s.productPromotions, q)
    ensures q != p ==> LinkedTo(DeletePromotion(s, p).servicePromotions, q) == LinkedTo(s.servicePromotions, q)
  {
  }
}
