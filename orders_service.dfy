/** The order service: reservation, confirmation, pickup validation and
    cancellation over the shared database.  Each method makes the NestJS
    service's checks in the same order, mutates copies of the records, writes them
    back, and rolls the tables back when the transaction fails.  Each is
    proved to do exactly what the matching function of OrderRules says. */
module Orders {
  import opened Results
  import opened Entities
  import opened OrderRules
  import opened Persistence
  import opened PickupCode

  class OrdersService {
    const db: Database

    constructor (db: Database)
      ensures this.db == db
    {
      this.db := db;
    }

    /** Reserve one unit of a bag for a customer.  The six random bytes feed
        the pickup-code generator, orderId is the fresh id the database
        assigns, now is the clock, and commitFails says whether the
        persistence layer fails to commit. */
    method CreateReservation(customerId: CustomerId, bagId: BagId, randomBytes: seq<Byte>,
                             orderId: OrderId, now: Millis, commitFails: bool)
      returns (r: Result<Order>)
      requires db.Valid() && |randomBytes| == PickupCodeLength && orderId !in db.orders
      modifies db
      ensures db.Valid()
      ensures var s := Reserve(old(db.State()), customerId, bagId, CodeFor(randomBytes), orderId, now);
              if s.result.Ok? && commitFails
              then r == Err(Internal) && db.State() == old(db.State())
              else r == s.result && db.State() == s.after
    {
      var savedBags, savedOrders := db.bags, db.orders;
      label transaction: {
        if bagId !in db.bags {
          r := Err(NotFound(MissingBag));
          break transaction;
        }
        var bag := db.bags[bagId];
        if bag.status != BagStatus.Available || bag.quantity <= 0 {
          r := Err(Conflict);
          break transaction;
        }
        if customerId !in db.customers {
          r := Err(NotFound(MissingCustomer));
          break transaction;
        }
        var pickupCode := GeneratePickupCode(randomBytes);
        var order := Order(orderId, now, OrderStatus.Pending, bagId, customerId, pickupCode);
        bag := bag.(quantity := bag.quantity - 1);
        if bag.quantity == 0 {
          bag := bag.(status := BagStatus.SoldOut);
        }
        db.bags := db.bags[bagId := bag];
        db.orders := db.orders[orderId := order];
        if commitFails {
          r := Err(Internal);
          break transaction;
        }
        r := Ok(order);
      }
      if r.Err? {
        db.bags, db.orders := savedBags, savedOrders;
      }
    }

    /** Check a pickup code against a confirmed order.  Reads only. */
    method ValidatePickup(orderId: OrderId, pickupCode: string) returns (r: Result<Order>)
      ensures r == CheckPickup(db.State(), orderId, pickupCode)
      ensures r.Ok? ==> r.value.status == OrderStatus.Confirmed && r.value.pickupCode == pickupCode
    {
      if orderId !in db.orders {
        return Err(NotFound(MissingOrder));
      }
      var order := db.orders[orderId];
      if order.status != OrderStatus.Confirmed {
        return Err(BadRequest(NotConfirmed));
      }
      if order.pickupCode != pickupCode {
        return Err(BadRequest(WrongPickupCode));
      }
      return Ok(order);
    }

    /** A customer cancels their order; the unit returns to the bag. */
    method CancelOrder(orderId: OrderId, customerId: CustomerId, now: Millis, commitFails: bool)
      returns (r: Result<Order>)
      requires db.Valid()
      modifies db
      ensures db.Valid()
      ensures var s := Cancel(old(db.State()), orderId, customerId, now);
              if s.result.Ok? && commitFails
              then r == Err(Internal) && db.State() == old(db.State())
              else r == s.result && db.State() == s.after
    {
      var savedBags, savedOrders := db.bags, db.orders;
      label transaction: {
        if orderId !in db.orders || db.orders[orderId].customerId != customerId {
          r := Err(NotFound(MissingOrder));
          break transaction;
        }
        var order := db.orders[orderId];
        if order.status == OrderStatus.Cancelled {
          r := Err(BadRequest(AlreadyCancelled));
          break transaction;
        }
        var bag := db.bags[order.bagId];
        if bag.pickupStart - now < CancelCutoff {
          r := Err(BadRequest(TooLateToCancel));
          break transaction;
        }
        order := order.(status := OrderStatus.Cancelled);
        bag := bag.(quantity := bag.quantity + 1);
        if bag.status == BagStatus.SoldOut {
          bag := bag.(status := BagStatus.Available);
        }
        db.bags := db.bags[order.bagId := bag];
        db.orders := db.orders[orderId := order];
        if commitFails {
          r := Err(Internal);
          break transaction;
        }
        r := Ok(order);
      }
      if r.Err? {
        db.bags, db.orders := savedBags, savedOrders;
      }
    }

    /** The store owning the order's bag confirms a pending order. */
    method ConfirmOrder(orderId: OrderId, storeId: StoreId, commitFails: bool)
      returns (r: Result<Order>)
      requires db.Valid()
      modifies db
      ensures db.Valid()
      ensures var s := Confirm(old(db.State()), orderId, storeId);
              if s.result.Ok? && commitFails
              then r == Err(Internal) && db.State() == old(db.State())
              else r == s.result && db.State() == s.after
    {
      var savedOrders := db.orders;
      label transaction: {
        if orderId !in db.orders {
          r := Err(NotFound(MissingOrder));
          break transaction;
        }
        var order := db.orders[orderId];
        if db.bags[order.bagId].storeId != storeId {
          r := Err(Unauthorized);
          break transaction;
        }
        if order.status != OrderStatus.Pending {
          r := Err(BadRequest(NotPending));
          break transaction;
        }
        order := order.(status := OrderStatus.Confirmed);
        db.orders := db.orders[orderId := order];
        if commitFails {
          r := Err(Internal);
          break transaction;
        }
        r := Ok(order);
      }
      if r.Err? {
        db.orders := savedOrders;
      }
    }
  }
}
