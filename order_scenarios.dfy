/** Request sequences the order engine is meant to support, stated as lemmas
    over the functions of OrderRules. */
module OrderScenarios {
  import opened Results
  import opened Entities
  import opened OrderRules

  /** The last unit: reserving it empties the bag and marks it SOLD_OUT, and a
      second reservation on the same bag is refused with a conflict. */
  lemma LastUnit(t: Tables, bagId: BagId, c1: CustomerId, c2: CustomerId, code1: string, code2: string,
                 id1: OrderId, id2: OrderId, now1: Millis, now2: Millis)
    requires bagId in t.bags && t.bags[bagId].status == BagStatus.Available && t.bags[bagId].quantity == 1
    requires c1 in t.customers
    ensures var first := Reserve(t, c1, bagId, code1, id1, now1);
            && first.result == Ok(Order(id1, now1, OrderStatus.Pending, bagId, c1, code1))
            && first.after.bags[bagId].quantity == 0
            && first.after.bags[bagId].status == BagStatus.SoldOut
            && Reserve(first.after, c2, bagId, code2, id2, now2).result == Err(Conflict)
  {
  }

  /** Cancelling a fresh reservation in time puts the bag back exactly as it
      was, whether or not the store confirmed the order in between. */
  lemma ReserveThenCancel(t: Tables, customerId: CustomerId, bagId: BagId, code: string,
                          orderId: OrderId, now: Millis, later: Millis, confirmFirst: bool)
    requires WellFormed(t) && orderId !in t.orders
    requires Reserve(t, customerId, bagId, code, orderId, now).result.Ok?
    requires !TooLate(t.bags[bagId], later)
    ensures var t1 := Reserve(t, customerId, bagId, code, orderId, now).after;
            var t2 := if confirmFirst then Confirm(t1, orderId, t.bags[bagId].storeId).after else t1;
            var s := Cancel(t2, orderId, customerId, later);
            && s.result.Ok?
            && s.result.value.status == OrderStatus.Cancelled
            && s.after.bags == t.bags
            && s.after.orders == t.orders[orderId := s.result.value]
  {
    var s1 := Reserve(t, customerId, bagId, code, orderId, now);
    var t1 := s1.after;
    var o1 := s1.result.value;
    var t2 := if confirmFirst then Confirm(t1, orderId, t.bags[bagId].storeId).after else t1;
    assert t2.bags == t1.bags;
    assert orderId in t2.orders && t2.orders[orderId].(status := OrderStatus.Pending) == o1;
    assert t2.orders == t.orders[orderId := t2.orders[orderId]];
    CancelRestores(t, t2, orderId, customerId, later);
  }

  /** The cancellation half of ReserveThenCancel: tables that differ from t
      only by one reserved unit of a bag and one live order on it return to t,
      apart from the order, which stays as CANCELLED. */
  lemma CancelRestores(t: Tables, t2: Tables, orderId: OrderId, customerId: CustomerId, later: Millis)
    requires WellFormed(t2) && orderId in t2.orders
    requires var o := t2.orders[orderId];
             && o.customerId == customerId && o.status != OrderStatus.Cancelled
             && o.bagId in t.bags
             && Reservable(t.bags[o.bagId]) && !TooLate(t.bags[o.bagId], later)
             && t2.orders == t.orders[orderId := o]
             && t2.bags == t.bags[o.bagId := t2.bags[o.bagId]]
             && Decremented(t.bags[o.bagId], t2.bags[o.bagId])
    ensures var s := Cancel(t2, orderId, customerId, later);
            && s.result.Ok?
            && s.result.value.status == OrderStatus.Cancelled
            && s.after.bags == t.bags
            && s.after.orders == t.orders[orderId := s.result.value]
  {
  }

  /** The pickup flow: a fresh order cannot be picked up; a foreign store
      cannot confirm it; the owning store can, once; after that the generated
      code, and only that code, passes the pickup check. */
  lemma PickupFlow(t: Tables, customerId: CustomerId, bagId: BagId, code: string, other: string,
                   orderId: OrderId, now: Millis, foreignStore: StoreId)
    requires WellFormed(t) && orderId !in t.orders
    requires Reserve(t, customerId, bagId, code, orderId, now).result.Ok?
    requires foreignStore != t.bags[bagId].storeId && other != code
    ensures var t1 := Reserve(t, customerId, bagId, code, orderId, now).after;
            var owner := t.bags[bagId].storeId;
            var t2 := Confirm(t1, orderId, owner).after;
            && CheckPickup(t1, orderId, code) == Err(BadRequest(NotConfirmed))
            && Confirm(t1, orderId, foreignStore).result == Err(Unauthorized)
            && Confirm(t1, orderId, owner).result.Ok?
            && Confirm(t2, orderId, owner).result == Err(BadRequest(NotPending))
            && CheckPickup(t2, orderId, code) == Ok(t2.orders[orderId])
            && t2.orders[orderId].status == OrderStatus.Confirmed
            && CheckPickup(t2, orderId, other) == Err(BadRequest(WrongPickupCode))
  {
  }

  /** The 30-minute rule applies to pending and confirmed orders alike. */
  lemma TooLateWhateverTheStatus(t: Tables, orderId: OrderId, customerId: CustomerId, now: Millis)
    requires WellFormed(t) && PlacedBy(t, orderId, customerId)
    requires t.orders[orderId].status in {OrderStatus.Pending, OrderStatus.Confirmed}
    requires TooLate(t.bags[t.orders[orderId].bagId], now)
    ensures Cancel(t, orderId, customerId, now) == Step(Err(BadRequest(TooLateToCancel)), t)
  {
  }
}
