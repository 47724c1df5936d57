# Salon back office: the rules, modelled in Dafny

The system is an Express + SQL Server back office for a multi-branch
beauty salon (database schema `estetica`). Most of its code sends one SQL
statement and returns the rows. This project models the parts that hold
rules, over an immutable store in which every table is a map from id to
row, link tables are sets of pairs and line tables are sequences:

- **Settlement** (`procesarVentaCompleta`). One cashier cart becomes a
  customer, a sale with its product lines, an invoice with its service
  lines, attended appointments, final totals and one payment, inside one
  transaction. `Settlement.Settle` returns the new store and the receipt,
  or a fault. A fault carries no store, which models the rollback: the
  caller keeps the store it started from.
- **Slots** (`getAvailableSlots`). Converts `"HH:MM"` to minutes and
  back. Walks 120-minute blocks from the start of the shift while a whole
  block fits before its end, and skips times that are already booked.
- **Inventory**. The stock-status `CASE` of the two inventory listings,
  with SQL NULL semantics.
- **Staff, Admin, Manager**. Listing branches without a manager, hiring
  and dismissing managers and employees (schedules are deleted first),
  the employee listing of a branch, replacing a promotion's product and
  service links, toggling a promotion and deleting it.
- **Auth** (`loginUser`). Employees are searched before customers.
  Customers always get the role `'cliente'`. No match gives `null`.

Supporting modules:

- `Wrappers`: `Option` and `Result`.
- `Tables`: the lowest id of a set.
- `Text`: JavaScript `split`, `join`, `Number`, `toString` and
  `padStart`, the value rules `x || null` and truthiness, plus an order
  on strings.
- `Ordering`: `ORDER BY` over a set of ids.
- `Schema`: the tables.

Inputs the code takes from outside are parameters of the model:

- `today` stands for `GETDATE()`;
- `number` stands for the invoice number built from `Date.now()`;
- the shift and the booked hours stand for the two queries of the slot
  endpoint.

Money is integer cents and is only ever copied.

Three behaviours of the settlement code worth stating plainly:

- Settlement marks every cited appointment `'Atendida'`, whatever its
  status (`src/models/cashierModel.js`, lines 242-247).
- The cart is not validated before the transaction begins.
- Nothing retries the customer insert.

## Model

| member | source | states |
|---|---|---|
| Settlement.Settle | src/models/cashierModel.js:147-287 | the transaction commits exactly when the cart is settleable: the customer can be resolved, the branch, the cashier, every product and every service exist |
| Settlement.SettleRollback | src/models/cashierModel.js:282-286 | every cart that is not settleable is refused; since a fault carries no store, the database keeps the store it started from (`Commit`) |
| Settlement.ResolveCustomer | src/models/cashierModel.js:154-180 | a truthy id is used unchanged with no lookup; else an existing customer with that cedula (the helper `CustomersWithCedula`: equal cedula, a NULL cedula matches nothing) is used with no insert; else exactly one customer is inserted under a fresh id, and the insert fails without a name or with a missing or over-long cedula |
| Settlement.GivenName | src/models/cashierModel.js:166-169 | the given name is the text before the first space, or 'Cliente' when that is empty; it holds no space |
| Settlement.FamilyName | src/models/cashierModel.js:166-170 | the family name is the text after the first space, or 'General' when that is empty |
| Text.RestAfterFirst | src/models/cashierModel.js:170 | `split(' ').slice(1).join(' ')` is the text after the first space |
| Text.OrNull | src/models/cashierModel.js:171-172 | the value stored for `x \|\| null` is never the empty string, equals the input exactly when the input is not the empty string, and is never a string the input did not hold |
| Settlement.SettleCustomer | src/models/cashierModel.js:154-180 | the invoice's customer is the caller's id, or the existing customer with that cedula (customers unchanged), or a single new customer named from the request |
| Settlement.OpenSale | src/models/cashierModel.js:182-192 | the sale header is inserted under a fresh id with total 0, and only when the branch and the cashier exist |
| Settlement.SettleSale | src/models/cashierModel.js:182-260 | the committed sale is new and its total column holds the request's subtotal, not its total (written by the helper `FinalizeTotals`) |
| Settlement.ItemsOfKindMembers | src/models/cashierModel.js:195 | the filter keeps exactly the items of the given type |
| Settlement.ItemsOfKindAppend | src/models/cashierModel.js:195 | the filter keeps cart order: filtering a concatenation concatenates the filtered parts |
| Settlement.WriteSaleLines | src/models/cashierModel.js:194-209 | one sale line per product item, in cart order, with the discount defaulting to 0; any unknown product aborts |
| Settlement.SettleSaleLines | src/models/cashierModel.js:194-209 | a committed settlement appends exactly the product lines of the cart, on the invoice's sale |
| Settlement.OpenInvoice | src/models/cashierModel.js:211-224 | the invoice header is inserted under a fresh id with all amounts 0, and only when the customer exists |
| Settlement.WriteServiceLines | src/models/cashierModel.js:226-248 | one invoice line of quantity 1 per service item, in cart order, and every cited appointment ends up 'Atendida'; any unknown service aborts |
| Settlement.ServiceLineStep | src/models/cashierModel.js:228-247 | writing one service line with its appointment update and then the rest equals writing all the lines and marking all the cited appointments |
| Settlement.MarkAttendedIdempotent | src/models/cashierModel.js:242-247 | repeating the appointment update changes nothing, and appointments not cited keep their status |
| Settlement.SettleInvoice | src/models/cashierModel.js:211-280 | the committed invoice is new and carries the branch, the number, the date and the caller's figures; the receipt repeats the invoice number and the request's total (the figures are written by the helper `FinalizeTotals`) |
| Settlement.SettleServiceLines | src/models/cashierModel.js:226-277 | a committed settlement appends exactly the cart's service lines, attends the cited appointments and records one payment of the total (the helper `RecordPayment`) |
| Settlement.SettleFrame | src/models/cashierModel.js:147-287 | a committed settlement touches no other table and keeps every identity counter above the ids in use |
| Tables.LeastKey | src/models/cashierModel.js:162-163 | the "first row" of several matches is the one with the lowest id |
| Slots.ToMinutes | src/controllers/appointmentController.js:57-60 | `hh*60 + mm` is a minute of the day |
| Slots.ToMinutesBySplit | src/controllers/appointmentController.js:57-60 | the value equals `Number` of the two pieces of `split(':')` |
| Slots.ToTimeStrByPadStart | src/controllers/appointmentController.js:63-67 | the formatter is the zero-padded `toString` of hours and minutes joined by ':' |
| Slots.ClockOfMinutes | src/controllers/appointmentController.js:57-67 | every minute of the day formats to an "HH:MM" time that parses back to the same minute |
| Slots.MinutesOfClock | src/controllers/appointmentController.js:57-67 | every "HH:MM" time is the format of the minute it parses to |
| Slots.ToTimeStrInjective | src/controllers/appointmentController.js:63-67 | two minutes of the day format to the same text exactly when they are equal |
| Slots.FreeStartsComplete | src/controllers/appointmentController.js:75-83 | every candidate start whose text is not booked is kept |
| Slots.FreeStartsIncreasing | src/controllers/appointmentController.js:75-85 | the kept starts strictly increase |
| Slots.GenerateCorrect | src/controllers/appointmentController.js:69-86 | every slot is start + k*120, leaves room for a full block before the end, is not booked, the slots strictly increase, and every candidate that fits and is not booked is listed |
| Slots.WalkShift | src/controllers/appointmentController.js:69-86 | the while loop produces exactly the reference sequence of slots, and terminates because the minute grows by 120 each turn |
| Slots.AvailableSlots | src/controllers/appointmentController.js:44-86 | no shift gives no slots; otherwise the slots are exactly those of the shift |
| Inventory.Classify | src/models/adminModel.js:88-92 | exactly one level applies and the first arm wins: non-positive stock is out, positive stock up to the minimum is low, anything else (including NULLs) is available |
| Inventory.AdminStatus | src/models/adminModel.js:88-92 | 'Agotado' exactly for non-positive stock, 'Bajo Stock' and 'Disponible' exactly for the other two levels |
| Inventory.ManagerStatus | src/models/managerModel.js:67-71 | 'Sin Stock' exactly for non-positive stock, 'Bajo Stock' and 'Disponible' exactly for the other two levels |
| Inventory.ListingsAgree | src/models/managerModel.js:67-71 | the two listings agree on every row except the out-of-stock ones |
| Inventory.MoreStockNotWorse | src/models/adminModel.js:88-92 | with the minimum fixed, more stock never gives a worse status |
| Staff.Hire | src/models/adminModel.js:165-168 | an inserted employee gets a fresh id and no other row or table changes |
| Staff.DismissIntact | src/models/managerModel.js:127-135 | after a dismissal (the helper `Dismiss`: the schedule delete, then the employee delete) every schedule still belongs to an existing employee and the counters stay valid |
| Staff.DismissUndoesHire | src/models/managerModel.js:86-137 | dismissing a just-hired employee restores the employee and schedule tables |
| Admin.BranchesWithoutManager | src/models/adminModel.js:139-145 | exactly the branches with no employee of role 'gerente', each once, ordered by name |
| Admin.CreateManager | src/models/adminModel.js:155-170 | the new row is an active 'gerente' with NULL specialty under a fresh id, storing the submitted branch, cedula, names and password and the phone as `telefono \|\| null`; nothing else changes |
| Admin.CreateManagerStaffsBranch | src/models/adminModel.js:139-170 | once a manager is hired for a branch it no longer lacks one; other branches are unaffected |
| Admin.DeleteManager | src/models/adminModel.js:183-201 | it fails and deletes nothing exactly when the id is not an employee of role 'gerente'; otherwise it removes that employee and their schedules only |
| Admin.DeleteManagerUndoesCreate | src/models/adminModel.js:155-201 | a just-hired manager can be dismissed, which restores the employee and schedule tables |
| Admin.ReassignedLinks | src/models/adminModel.js:343-353 | after the delete of the promotion's links and one insert per id (the helpers `Unlinked` and `Reassigned`), the promotion's items become exactly the given ids; every other promotion keeps its items |
| Admin.ReassignIdempotent | src/models/adminModel.js:343-353 | assigning the same ids twice equals assigning them once |
| Admin.ReplaceLinks | src/models/adminModel.js:343-353 | the delete-then-insert loop computes exactly the re-assigned links |
| Admin.AssignProducts | src/models/adminModel.js:338-360 | the promotion's products become the ids; other promotions and all other tables are unchanged |
| Admin.AssignServices | src/models/adminModel.js:363-385 | the promotion's services become the ids; other promotions and all other tables are unchanged |
| Admin.TogglePromotion | src/models/adminModel.js:388-403 | only that promotion's flag changes, its name is kept, and an unknown id changes nothing |
| Admin.ToggleTwice | src/models/adminModel.js:391-397 | toggling twice (the `CASE` is the helper `Flip`) restores the store exactly when the flag was 'V' or 'F'; a NULL or any other flag ends as 'F' |
| Admin.DeletePromotion | src/models/adminModel.js:406-429 | the promotion and exactly its product and service links are removed, and nothing else |
| Admin.DeletePromotionIntact | src/models/adminModel.js:411-422 | no link is left dangling and no other promotion loses an item |
| Manager.EmployeesOfBranch | src/models/managerModel.js:35-46 | exactly the branch's employees with a non-NULL specialty, each once, ordered by given names |
| Manager.CreateEmployee | src/models/managerModel.js:86-107 | the new row is an active 'empleado' with NULL password under a fresh id, storing the submitted branch, cedula, names and specialty and the phone as `telefono \|\| null`; nothing else changes |
| Manager.CreateEmployeeListed | src/models/managerModel.js:35-101 | a new employee shows in the branch listing exactly when a specialty was given; no other row's listing changes |
| Manager.DeleteEmployee | src/models/managerModel.js:110-142 | it fails and deletes nothing exactly when the employee has a 'Pendiente' appointment; otherwise it removes the employee and their schedules only |
| Manager.DeleteEmployeeUnlists | src/models/managerModel.js:110-137 | a dismissed employee leaves the listings, nobody else does, and schedules stay attached to existing employees |
| Ordering.OrderByListing | src/models/managerModel.js:45 | an ORDER BY listing holds every row of the set exactly once, in key order |
| Auth.LoginUser | src/models/authModel.js:3-44 | a row matches when its cedula and password both equal the submitted ones, and a NULL password never matches (the helpers `EmployeeHits` and `CustomerHits`); null exactly when nobody matches; an employee login is the lowest matching employee with their stored role; a customer login is the lowest matching customer with role 'cliente' |
| Auth.EmployeeFirst | src/models/authModel.js:17-20 | when an employee matches, the result is that employee's login, whatever customer also matches |
| Auth.CustomerOnlyWithoutEmployee | src/models/authModel.js:22-35 | a customer login happens exactly when a customer matches and no employee does, and its role is 'cliente' |
| Auth.EmployeeLoginIgnoresCustomers | src/models/authModel.js:7-20 | once an employee matches, the customer table has no influence on the result |

## Left out

- Settlement.Settle / Settlement.ResolveCustomer: the set of carts that
  fail is derived from an assumed schema, not from anything the code
  shows. It assumes a NOT NULL customer cedula of at most 10 characters
  that the insert rejects when longer, and foreign keys from the sale, the
  invoice and the lines to the branch, cashier, customer, product and
  service. Other constraints are not modelled: a NULL quantity or payment
  method, CHECK constraints, duplicate detail keys. Neither is a driver
  that truncates a value to the declared parameter length
  (`VarChar(10)` in the lookup, `Char(10)` in the insert) instead of
  failing.
- The connection pool, server start-up, the HTTP controllers other than
  the slot logic, and the read-only listings. They hold no state rule.
  The two listings the rules rely on are the exceptions: branches without
  a manager and the staff of a branch.
- The queries of `appointmentModel.js`: the working shift of the employee
  on that weekday and the booked hours. `Slots.AvailableSlots` receives
  them as parameters. The weekday derived with `new Date(...)` is also
  left out, because it depends on the clock and the time zone.
- Slots.AvailableSlots: requires both shift times in "HH:MM" form, which
  the `CONVERT(varchar(5), ..., 108)` of the shift query produces. The
  source does not check this itself.
- `GETDATE()` and the invoice number `F-${Date.now()}`. They are
  parameters, so nothing here guarantees the number is unique.
- Settlement.Settle: one `today` stands for the three separate
  `CAST(GETDATE() AS DATE)` reads of the sale, invoice and payment
  inserts (`src/models/cashierModel.js`, lines 189, 221 and 277). SQL
  Server evaluates `GETDATE()` once per statement, so a settlement that
  runs across midnight can store three different dates. The model stores
  the one date in all three rows, so SettleSale, SettleInvoice and
  SettleServiceLines describe a settlement that does not cross midnight.
- Decimal money and the 30% markup of the product listing. Money is whole
  cents and is only copied.
- Identity values that a rolled-back insert consumes in SQL Server. In
  the model a rollback leaves the counters as they were.
- Concurrency. This covers the lookup-then-insert race on a customer's
  cedula and interleavings of the admin operations. The admin and manager
  operations are not transactions; the model gives their effect when every
  statement succeeds.
- Constraint failures of the admin and manager statements: an unknown
  product, service or promotion id or a repeated id in an assignment, an
  employee still referenced by sales or appointments, an unknown branch.
  The schema behind them is not part of this model.
- Column widths other than the customer's CHAR(10) cedula, such as
  VARCHAR(60) names and VARCHAR(10) phones.
- SQL Server collation. String comparisons and `ORDER BY` compare
  character codes exactly, so case folding and the trailing-space rule of
  CHAR comparison are not modelled. Ties in `ORDER BY`, and several rows
  returned without one, are resolved by ascending id; SQL Server leaves
  that order unspecified.
