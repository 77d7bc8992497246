/** The order engine as functions of the database: what a reservation, a
    confirmation, a pickup check and a cancellation return and how each leaves
    the tables.  Every failure leaves the tables exactly as they were, which is
    what the transaction's rollback guarantees. */
module OrderRules {
  import opened Results
  import opened Entities

  /** An order may be cancelled only while at least this long remains before
      its bag's pickup window opens (30 minutes). */
  const CancelCutoff: Millis := 30 * 60 * 1000

  /** The result of one operation together with the tables after it. */
  datatype Step = Step(result: Result<Order>, after: Tables)

  /** A bag a customer may reserve. */
  predicate Reservable(b: Bag)
  {
    b.status == BagStatus.Available && b.quantity > 0
  }

  /** How a reservation changes a bag: one unit fewer, SOLD_OUT exactly when
      none remain, nothing else touched. */
  predicate Decremented(b: Bag, b': Bag)
  {
    && b'.quantity == b.quantity - 1
    && (b'.status == BagStatus.SoldOut <==> b'.quantity == 0)
    && (b'.quantity != 0 ==> b'.status == b.status)
    && b'.(quantity := b.quantity, status := b.status) == b
  }

  /** How a cancellation changes a bag: one unit more, SOLD_OUT reopened to
      AVAILABLE, any other status kept, nothing else touched. */
  predicate Released(b: Bag, b': Bag)
  {
    && b'.quantity == b.quantity + 1
    && (b.status == BagStatus.SoldOut ==> b'.status == BagStatus.Available)
    && (b.status != BagStatus.SoldOut ==> b'.status == b.status)
    && b'.(quantity := b.quantity, status := b.status) == b
  }

  /** The store that owns the bag of an order. */
  function StoreOf(t: Tables, o: Order): StoreId
    requires o.bagId in t.bags
  {
    t.bags[o.bagId].storeId
  }

  /** Too close to the pickup window for a cancellation.  The service compares
      (pickupStart - now) / 60000 < 30 in floating point, which for integer
      milliseconds is this comparison. */
  predicate TooLate(b: Bag, now: Millis)
  {
    b.pickupStart - now < CancelCutoff
  }

  /** The order with this id placed by this customer exists. */
  predicate PlacedBy(t: Tables, orderId: OrderId, customerId: CustomerId)
  {
    orderId in t.orders && t.orders[orderId].customerId == customerId
  }

  /** Reserve one unit of a bag for a customer, creating a PENDING order with
      the given pickup code, order id and order date. */
  function Reserve(t: Tables, customerId: CustomerId, bagId: BagId, code: string,
                   orderId: OrderId, now: Millis): (s: Step)
    ensures s.result.Err? ==> s.after == t
    ensures bagId !in t.bags ==> s.result == Err(NotFound(MissingBag))
    ensures bagId in t.bags && !Reservable(t.bags[bagId]) ==> s.result == Err(Conflict)
    ensures bagId in t.bags && Reservable(t.bags[bagId]) && customerId !in t.customers ==>
              s.result == Err(NotFound(MissingCustomer))
    ensures s.result.Ok? <==> bagId in t.bags && Reservable(t.bags[bagId]) && customerId in t.customers
    ensures s.result.Ok? ==>
              && s.result.value == Order(orderId, now, OrderStatus.Pending, bagId, customerId, code)
              && s.after.orders == t.orders[orderId := s.result.value]
              && bagId in s.after.bags
              && s.after.bags == t.bags[bagId := s.after.bags[bagId]]
              && Decremented(t.bags[bagId], s.after.bags[bagId])
              && s.after.bags[bagId].quantity >= 0
              && s.after.customers == t.customers
              && s.after.stores == t.stores
    ensures WellFormed(t) ==> WellFormed(s.after)
  {
    if bagId !in t.bags then
      Step(Err(NotFound(MissingBag)), t)
    else
      var bag := t.bags[bagId];
      if bag.status != BagStatus.Available || bag.quantity <= 0 then
        Step(Err(Conflict), t)
      else if customerId !in t.customers then
        Step(Err(NotFound(MissingCustomer)), t)
      else
        var order := Order(orderId, now, OrderStatus.Pending, bagId, customerId, code);
        var left := bag.quantity - 1;
        var bag' := bag.(quantity := left, status := if left == 0 then BagStatus.SoldOut else bag.status);
        Step(Ok(order), t.(bags := t.bags[bagId := bag'], orders := t.orders[orderId := order]))
  }

  /** A store confirms a pending order for one of its bags. */
  function Confirm(t: Tables, orderId: OrderId, storeId: StoreId): (s: Step)
    requires WellFormed(t)
    ensures s.result.Err? ==> s.after == t
    ensures orderId !in t.orders ==> s.result == Err(NotFound(MissingOrder))
    ensures orderId in t.orders && StoreOf(t, t.orders[orderId]) != storeId ==>
              s.result == Err(Unauthorized)
    ensures orderId in t.orders && StoreOf(t, t.orders[orderId]) == storeId
            && t.orders[orderId].status != OrderStatus.Pending ==>
              s.result == Err(BadRequest(NotPending))
    ensures s.result.Ok? <==>
              && orderId in t.orders
              && StoreOf(t, t.orders[orderId]) == storeId
              && t.orders[orderId].status == OrderStatus.Pending
    ensures s.result.Ok? ==>
              && s.result.value == t.orders[orderId].(status := OrderStatus.Confirmed)
              && s.after.orders == t.orders[orderId := s.result.value]
              && s.after.bags == t.bags
              && s.after.customers == t.customers
              && s.after.stores == t.stores
    ensures WellFormed(s.after)
  {
    if orderId !in t.orders then
      Step(Err(NotFound(MissingOrder)), t)
    else
      var order := t.orders[orderId];
      if t.bags[order.bagId].storeId != storeId then
        Step(Err(Unauthorized), t)
      else if order.status != OrderStatus.Pending then
        Step(Err(BadRequest(NotPending)), t)
      else
        var order' := order.(status := OrderStatus.Confirmed);
        Step(Ok(order'), t.(orders := t.orders[orderId := order']))
  }

  /** Check a pickup: the order must exist, be CONFIRMED and carry the
      supplied code.  Nothing changes. */
  function CheckPickup(t: Tables, orderId: OrderId, code: string): (r: Result<Order>)
    ensures orderId !in t.orders ==> r == Err(NotFound(MissingOrder))
    ensures orderId in t.orders && t.orders[orderId].status != OrderStatus.Confirmed ==>
              r == Err(BadRequest(NotConfirmed))
    ensures orderId in t.orders && t.orders[orderId].status == OrderStatus.Confirmed
            && t.orders[orderId].pickupCode != code ==>
              r == Err(BadRequest(WrongPickupCode))
    ensures r.Ok? <==>
              && orderId in t.orders
              && t.orders[orderId].status == OrderStatus.Confirmed
              && t.orders[orderId].pickupCode == code
    ensures r.Ok? ==> r.value == t.orders[orderId]
  {
    if orderId !in t.orders then
      Err(NotFound(MissingOrder))
    else
      var order := t.orders[orderId];
      if order.status != OrderStatus.Confirmed then
        Err(BadRequest(NotConfirmed))
      else if order.pickupCode != code then
        Err(BadRequest(WrongPickupCode))
      else
        Ok(order)
  }

  /** A customer cancels one of their orders that is not yet cancelled, in
      time; the unit goes back to the bag. */
  function Cancel(t: Tables, orderId: OrderId, customerId: CustomerId, now: Millis): (s: Step)
    requires WellFormed(t)
    ensures s.result.Err? ==> s.after == t
    ensures !PlacedBy(t, orderId, customerId) ==> s.result == Err(NotFound(MissingOrder))
    ensures PlacedBy(t, orderId, customerId) && t.orders[orderId].status == OrderStatus.Cancelled ==>
              s.result == Err(BadRequest(AlreadyCancelled))
    ensures PlacedBy(t, orderId, customerId) && t.orders[orderId].status != OrderStatus.Cancelled
            && TooLate(t.bags[t.orders[orderId].bagId], now) ==>
              s.result == Err(BadRequest(TooLateToCancel))
    ensures s.result.Ok? <==>
              && PlacedBy(t, orderId, customerId)
              && t.orders[orderId].status != OrderStatus.Cancelled
              && !TooLate(t.bags[t.orders[orderId].bagId], now)
    ensures s.result.Ok? ==>
              var o := t.orders[orderId];
              && s.result.value == o.(status := OrderStatus.Cancelled)
              && s.after.orders == t.orders[orderId := s.result.value]
              && o.bagId in s.after.bags
              && s.after.bags == t.bags[o.bagId := s.after.bags[o.bagId]]
              && Released(t.bags[o.bagId], s.after.bags[o.bagId])
              && s.after.customers == t.customers
              && s.after.stores == t.stores
    ensures WellFormed(s.after)
  {
    if orderId !in t.orders || t.orders[orderId].customerId != customerId then
      Step(Err(NotFound(MissingOrder)), t)
    else
      var order := t.orders[orderId];
      if order.status == OrderStatus.Cancelled then
        Step(Err(BadRequest(AlreadyCancelled)), t)
      else
        var bag := t.bags[order.bagId];
        if bag.pickupStart - now < CancelCutoff then
          Step(Err(BadRequest(TooLateToCancel)), t)
        else
          var order' := order.(status := OrderStatus.Cancelled);
          var bag' := bag.(quantity := bag.quantity + 1,
                           status := if bag.status == BagStatus.SoldOut then BagStatus.Available else bag.status);
          Step(Ok(order'), t.(bags := t.bags[order.bagId := bag'], orders := t.orders[orderId := order']))
  }
}
