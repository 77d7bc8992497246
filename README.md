# Surprise-bag marketplace: order reservation and inventory engine in Dafny

This project models the core of a marketplace backend. Stores offer surplus food as "surprise bags" and customers reserve them. The model covers:

- **Order engine** (`OrdersService`). Reserving a unit of a bag turns it into a PENDING order with a six-character pickup code. The store that owns the bag confirms the order. A pickup check validates the code against a CONFIRMED order. Cancelling in time returns the unit to the bag. Each mutating operation is one transaction: it commits all of its writes or rolls all of them back.
- **Surprise-bag service**. It creates a bag for a store the caller owns, looks a bag up, patches it, deletes it (the bag's orders are deleted with it), and sets its inventory. A quantity of 0 withdraws the bag (CANCELLED).
- **Pickup-code generator**. Six bytes become six characters of `0-9A-Z`. Character i is the alphabet letter at `bytes[i] mod 36`.
- **Role authorisation**. The `Roles` decorator stores the one-level flattening of its arguments under the key `"roles"`. The guard admits a request when no roles are declared or the user holds one of them. Otherwise it raises Forbidden.
- **Pagination**. Skip/take offsets and the page count, which is the ceiling of total / limit.

## How it is built

- `results.dfy`: `Option`, `Result`, and the error kinds. Each error kind is one of the HTTP exception classes the NestJS services throw. `NotFound` records which record was missing. `BadRequest` records why it was raised.
- `entities.dfy`: the bag, order and store records. `Tables` holds the four database tables. `WellFormed` states that primary and foreign keys are consistent.
- `order_rules.dfy`: the order engine as pure functions `Reserve`, `Confirm`, `CheckPickup` and `Cancel`. Each takes the tables and returns a result plus the new tables. Their contracts state the service's checks in the order the TypeScript code makes them, say that every error leaves the tables unchanged, and give the exact effect on the bag and the order.
- `order_invariants.dfy`: traces of reservations, confirmations and cancellations (`Run`) and what they preserve. Bag updates, inventory changes and deletions are not part of a trace:
  - no unit is created or lost: shelf quantity plus live orders is constant;
  - no overselling;
  - quantities stay non-negative;
  - unless a bag is CANCELLED, SOLD_OUT holds exactly when its quantity is 0;
  - order statuses only move forward and pickup codes never change.
- `order_scenarios.dfy`: the last-unit race, the reserve → (confirm) → cancel round trip, the pickup flow, and the 30-minute rule.
- `persistence.dfy`: the `Database` class. Its bag, order and store maps and its customer set are shared by both services.
- `orders_service.dfy`: the `OrdersService` class. Its methods mutate record copies, write them back, and restore the snapshot on failure. Each method is proved equal to the matching `OrderRules` function.
- `surprise_bags.dfy`: the `SurpriseBagService` class, with the pure `Restocked`/`Patched`/`NewBag` it is specified by.
- `pickup_code.dfy`, `roles.dfy`, `roles_guard.dfy`, `pagination.dfy`: the satellite pieces.

Effects the model takes as inputs:

- The random bytes of the code generator.
- The clock, as integer milliseconds.
- The ids the database generates.
- Whether the persistence layer fails to commit.

Error kinds and the bag status invariant:

- An unavailable bag raises ConflictException (HTTP 409).
- Already-cancelled, too-late, not-pending, not-confirmed and wrong-code all raise BadRequestException. The model tells them apart by a reason field.
- The status invariant "SOLD_OUT iff quantity 0 unless CANCELLED" is not global. Reservation, confirmation and cancellation keep it (`OrderInvariants.RunKeepsConsistent`). `updateInventory` with a positive quantity on a SOLD_OUT bag breaks it. The bag then stays SOLD_OUT and cannot be reserved (`SurpriseBags.RestockAndConsistency`, `SurpriseBags.RestockAndReservation`). `update` can set any status and quantity.

## Model

| member | source | states |
|---|---|---|
| OrderRules.Reserve | src/orders/orders.service.ts:37-75 | Errors come in this order: bag missing gives NotFound; bag not AVAILABLE or quantity ≤ 0 gives Conflict; only then a missing customer gives NotFound. Success exactly when none applies. Every error leaves the tables unchanged. On success the new order is PENDING and carries the generated code, the customer, the bag and the date. The order and the bag update are written together. The quantity drops by exactly 1 and stays ≥ 0. The bag is SOLD_OUT exactly when it reaches 0, otherwise it keeps its status. No other bag field or table changes. Referential integrity is preserved. |
| OrderRules.Confirm | src/orders/orders.service.ts:167-185 | Missing order gives NotFound. If the bag's store is not the caller's store: Unauthorized, checked before the status. Not PENDING gives BadRequest. Success exactly when all pass. Only the order's status changes, to CONFIRMED. Bags and other tables are untouched. Errors change nothing. |
| OrderRules.CheckPickup | src/orders/orders.service.ts:85-103 | Missing order gives NotFound. Not CONFIRMED gives BadRequest. A code different from the stored one gives BadRequest. Otherwise the stored order is returned. |
| OrderRules.Cancel | src/orders/orders.service.ts:111-147 | NotFound unless that customer placed the order. Already CANCELLED gives BadRequest. pickupStart − now < 1,800,000 ms gives BadRequest, whatever the status. On success the order becomes CANCELLED. The bag gains exactly one unit, SOLD_OUT reopens to AVAILABLE, any other status is kept, and nothing else changes. Errors change nothing. |
| Orders.OrdersService.CreateReservation | src/orders/orders.service.ts:25-82 | Runs the reservation transaction in place and ends in exactly the state and result of `Reserve`. On a commit failure it rolls back to the old tables and returns Internal. |
| Orders.OrdersService.ValidatePickup | src/orders/orders.service.ts:85-103 | Returns exactly `CheckPickup` of the current tables. A successful result is a CONFIRMED order whose code is the supplied one. Changes nothing. |
| Orders.OrdersService.CancelOrder | src/orders/orders.service.ts:105-154 | Runs the cancellation transaction in place and ends in exactly the state and result of `Cancel`. On a commit failure it rolls back bags and orders. |
| Orders.OrdersService.ConfirmOrder | src/orders/orders.service.ts:156-192 | Runs the confirmation transaction in place and ends in exactly the state and result of `Confirm`. On a commit failure it rolls back. |
| OrderInvariants.ReserveKeepsUnits | src/orders/orders.service.ts:57-72 | A reservation with a fresh order id moves one unit from the shelf into a live order. Shelf quantity plus live orders stays the same for every bag. |
| OrderInvariants.ConfirmKeepsUnits | src/orders/orders.service.ts:181-182 | A confirmation keeps shelf quantity plus live orders for every bag. |
| OrderInvariants.CancelKeepsUnits | src/orders/orders.service.ts:134-144 | A cancellation moves the order's unit back to the shelf. Shelf quantity plus live orders stays the same. |
| OrderInvariants.RunKeepsUnits | src/orders/orders.service.ts:66-141 | No sequence of reservations, confirmations and cancellations creates or loses a unit of any bag. |
| OrderInvariants.RunKeepsQuantity | src/orders/orders.service.ts:41-66 | A bag whose quantity is ≥ 0 stays ≥ 0 under any sequence of requests. |
| OrderInvariants.NoOverselling | src/orders/orders.service.ts:41-69 | A bag with q ≥ 0 units and no live orders never ends up with more than q live orders, whatever the requests. |
| OrderInvariants.RunKeepsConsistent | src/orders/orders.service.ts:66-141 | The bag invariant survives any sequence of requests: quantity ≥ 0, and, when not CANCELLED, SOLD_OUT exactly when the quantity is 0. |
| OrderInvariants.RunAdvances | src/orders/orders.service.ts:120-181 | No reservation, confirmation or cancellation removes an order. Its status only moves PENDING → CONFIRMED → CANCELLED or PENDING → CANCELLED. Its bag, customer, date and pickup code never change. |
| OrderInvariants.LiveAfterWrite | src/orders/orders.service.ts:72 | Writing one order changes the set of live orders on a bag by at most that order. |
| OrderScenarios.LastUnit | src/orders/orders.service.ts:41-69 | Reserving the last unit creates a PENDING order and leaves the bag at 0 and SOLD_OUT. A second reservation on that bag is refused with Conflict. |
| OrderScenarios.ReserveThenCancel | src/orders/orders.service.ts:134-141 | Reserving and then cancelling in time restores the bag exactly, with or without a confirmation in between. The order remains, as CANCELLED. |
| OrderScenarios.CancelRestores | src/orders/orders.service.ts:134-141 | Cancelling a live order that took one unit from a reservable bag puts that bag back exactly as it was. |
| OrderScenarios.PickupFlow | src/orders/orders.service.ts:94-181 | A fresh order fails the pickup check as not confirmed. A foreign store gets Unauthorized. The owning store confirms it once, and a second confirmation fails. Afterwards the generated code passes and any other code fails. |
| OrderScenarios.TooLateWhateverTheStatus | src/orders/orders.service.ts:124-131 | Cancelling a PENDING or CONFIRMED order less than 30 minutes before pickup fails with BadRequest and changes nothing. |
| PickupCode.GeneratePickupCode | src/common/utils/pickup-code.generator.ts:5-16 | The loop produces exactly 6 characters. Character i is `ALPHABET[bytes[i] mod 36]`, one byte per position, in order. The result equals `CodeFor(bytes)`. |
| PickupCode.CodeFor | src/common/utils/pickup-code.generator.ts:11-13 | The generated code is a pickup code: 6 characters, each drawn from `0-9A-Z`. |
| PickupCode.CharFor | src/common/utils/pickup-code.generator.ts:12 | The character emitted for a byte is in the alphabet. |
| PickupCode.AlphabetAt | src/common/utils/pickup-code.generator.ts:7 | The alphabet is the ten digits followed by the 26 upper-case letters. |
| PickupCode.Position | src/common/utils/pickup-code.generator.ts:7 | Every alphabet character has a position n < 36 at which it stands. |
| PickupCode.PositionOfIndex | src/common/utils/pickup-code.generator.ts:7 | The alphabet has no repeated character: the position of the n-th character is n. |
| PickupCode.Decode | src/common/utils/pickup-code.generator.ts:12 | Decoding a pickup code gives 6 values, each below 36. |
| PickupCode.CharForPosition | src/common/utils/pickup-code.generator.ts:12 | Emitting the character for a character's position gives the character back. |
| PickupCode.DecodeThenGenerate | src/common/utils/pickup-code.generator.ts:11-13 | Every 6-character string over the alphabet is produced by some bytes, namely its decoding. |
| PickupCode.GenerateThenDecode | src/common/utils/pickup-code.generator.ts:12 | Decoding a generated code recovers every byte mod 36. |
| PickupCode.SameCodeIffCongruent | src/common/utils/pickup-code.generator.ts:12 | Two byte strings give the same code if and only if they agree mod 36 at every position. |
| SurpriseBags.SurpriseBagService.Create | src/suprise-bags/surprise-bags.service.ts:24-49 | Missing store gives NotFound. A caller who is not the store's owner gets Forbidden, with nothing saved. Success exactly when both pass. Then the saved bag carries the supplied fields and the store, and no other record changes. |
| SurpriseBags.SurpriseBagService.FindOne | src/suprise-bags/surprise-bags.service.ts:55-64 | No bag with that id gives NotFound. Otherwise the stored bag is returned. |
| SurpriseBags.SurpriseBagService.Update | src/suprise-bags/surprise-bags.service.ts:66-78 | Missing bag gives NotFound and no change. Otherwise the stored bag is replaced by its merge with the partial update, and nothing else changes. |
| SurpriseBags.SurpriseBagService.Remove | src/suprise-bags/surprise-bags.service.ts:80-85 | Deleting an absent bag gives NotFound and no change. Otherwise the bag and, by the cascade, its orders are gone, and the other tables are unchanged. |
| SurpriseBags.SurpriseBagService.UpdateInventory | src/suprise-bags/surprise-bags.service.ts:87-99 | Missing bag gives NotFound and no change. Otherwise the stored bag becomes `Restocked(bag, quantity)` and nothing else changes. |
| SurpriseBags.Restocked | src/suprise-bags/surprise-bags.service.ts:94-97 | The quantity is set to exactly the given value. 0 forces CANCELLED. Any other value leaves the status unchanged, so SOLD_OUT stays SOLD_OUT. No other field changes. |
| SurpriseBags.RestockAndReservation | src/suprise-bags/surprise-bags.service.ts:94-97 | After an inventory update a bag can be reserved if and only if the new quantity is positive and the bag was AVAILABLE. |
| SurpriseBags.RestockAndConsistency | src/suprise-bags/surprise-bags.service.ts:94-97 | For a bag that satisfies the status invariant and a quantity ≥ 0: the inventory update keeps the invariant if and only if it does not put a positive quantity on a SOLD_OUT bag. |
| SurpriseBags.NewBag | src/suprise-bags/surprise-bags.service.ts:43-46 | A created bag carries exactly the supplied fields, its id, and the store. |
| SurpriseBags.Patched | src/suprise-bags/surprise-bags.service.ts:70-73 | A partial update never changes the bag's id or its store. |
| SurpriseBags.PatchLaws | src/suprise-bags/surprise-bags.service.ts:70-73 | An empty update changes nothing. Applying an update twice equals applying it once. An update that sets every field gives the bag created from those fields. |
| SurpriseBags.PatchKeepsAbsentFields | src/suprise-bags/surprise-bags.service.ts:70-73 | A field the update omits keeps its stored value. A field it supplies takes the new value. |
| SurpriseBags.WithoutBagOrders | src/orders/entities/order.entity.ts:23 | Deleting a bag deletes exactly the orders on that bag and keeps every other order unchanged. |
| RolesDecorator.Roles | src/common/decorators/roles.decorator.ts:4-10 | The decorator attaches exactly one metadata entry, under `"roles"` (the key the guard reads, as `RolesGuard.DecoratedHandler` shows), holding `Flatten(args)`: a role is stored if and only if some argument contributes it. |
| RolesDecorator.Flatten | src/common/decorators/roles.decorator.ts:9 | A role is in the stored list if and only if some argument contributes it: a single role contributes itself, a list contributes its elements. |
| RolesDecorator.FlattenAppend | src/common/decorators/roles.decorator.ts:9 | Flattening preserves argument order: the list for a + b is the list for a followed by the list for b. |
| RolesDecorator.FlattenLength | src/common/decorators/roles.decorator.ts:9 | The stored list is as long as all contributions together. |
| RolesDecorator.WrapSingleRole | src/common/decorators/roles.decorator.ts:7-9 | Passing R or [R], in any argument position, stores the same list. |
| RolesGuard.RequiredRoles | src/common/guards/roles.guard.ts:17-20 | The handler's declared roles take precedence over the class's. With neither, nothing is declared. |
| RolesGuard.AnyMatches | src/common/guards/roles.guard.ts:31-33 | The left-to-right search succeeds if and only if some required role matches the user's claim. |
| RolesGuard.CanActivate | src/common/guards/roles.guard.ts:16-42 | With no declared roles (none or empty), access is allowed. Against a role list, access is allowed if and only if some required role is in the list. Against a single role, if and only if it equals a required role. Without a role, access is denied. Denial is always Forbidden and success is always true, never false. |
| RolesGuard.HandlerOverridesClass | src/common/guards/roles.guard.ts:17-20 | Once the handler declares roles, the class's declaration does not affect the decision. |
| RolesGuard.DecoratedHandler | src/common/decorators/roles.decorator.ts:4-10 | The guard reads what the decorator stores under `"roles"`. A decorated handler admits role x if and only if no roles were given or some argument contributes x. |
| Pagination.Paginate | src/utils/pagination.ts:3-24 | Omitted page and limit default to 1 and 10. The returned page and limit equal the inputs. total is the count of all rows, independent of page and limit. `data` is exactly the skip/take window (`Window`): the rows from offset (page − 1)·limit on, min(limit, total − (page − 1)·limit) of them (none past the end). totalPages is the page count. |
| Pagination.PageContents | src/utils/pagination.ts:9-13 | A page holds at most `limit` rows and never more than there are. Its i-th row is row (page − 1)·limit + i. Page 1 is a prefix of the rows. |
| Pagination.TotalPages | src/utils/pagination.ts:21 | totalPages = ⌈total / limit⌉: 0 pages exactly when total is 0, and (totalPages − 1)·limit < total ≤ totalPages·limit. |
| Pagination.Window | src/utils/pagination.ts:10-13 | skip/take returns at most `take` rows, the ones starting at row `skip`, and none past the end. |
| Pagination.PagesFromSuffix | src/utils/pagination.ts:8-13 | Pages p, p+1, … up to the last, concatenated, are exactly the rows from offset (p − 1)·limit on. |
| Pagination.PagesCoverAllRows | src/utils/pagination.ts:8-21 | Reading pages 1 to totalPages returns every row exactly once, in order. |

## Left out

- Concurrency is not modelled. This covers the pessimistic row lock, connecting and releasing the query runner, and callers racing for the last unit. Each transaction is one atomic sequential method.
- Cancellation and confirmation read the order through the plain repository, outside their transaction. A sequential model cannot distinguish this.
- The clock, the random source and the database's uuid generator are parameters, not modelled.
- A commit failure is one boolean parameter. The model does not distinguish which save failed: rollback undoes both either way.
- Floating point is not modelled: the prices, a store's average rating and average bag value.
- Cancel's minute computation `(pickupStart − now) / 60000 < 30` is modelled as the integer comparison `pickupStart − now < 1,800,000` ms, which gives the same answer for integer milliseconds.
- Invalid dates (NaN timestamps, which make the comparison false) are not modelled.
- Orders.OrdersService.CreateReservation: requires an order id not yet in the orders table. It stands for the database's fresh uuid.
- SurpriseBags.SurpriseBagService.Create: requires a bag id not yet in the bags table, for the same reason.
- `findAll` is not modelled. It lists all bags in the database's order and has no logic of its own.
- The controllers, response mapping, module wiring, authentication, mail, user and store services, and DTO validation are not part of this model. Each is a thin wrapper or library behaviour.
- The role enum file is not part of this model. The three roles are those the controllers use.
- The store entity declares its owner relation as `user`, while the service loads `owner`. Read as written, that lookup fails before the ownership check is reached. The model follows the ownership check the service intends: it gives a store an owner id and does not model the failed relation lookup.
- RolesGuard.CanActivate: a request without a user object raises a runtime type error in the TypeScript guard. The model always has a user, whose role claim may be absent.
- Pagination.Paginate: defined only for page ≥ 1 and limit ≥ 1. The TypeScript code passes other values to the query builder unchecked, and the outcome is decided by the query library and by floating-point `Math.ceil` of a division by zero.
- Pagination.TotalPages: computed on unbounded integers. The TypeScript code's floating-point `Math.ceil(total / limit)` agrees for counts below 2^53.
